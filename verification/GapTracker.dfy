/** `_GapTracker` (chat_client.py:217-430): which sequence numbers of an origin are missing, and since when. */
module GapTracker {
  import opened Basics
  import opened Bytes
  import opened GapRanges
  import GapText

  /** `lastSig` is `_ranges_signature` as the list of (start, end, confirmed) it prints. */
  datatype OriginState = OriginState(
    hi: int,
    ooo: set<int>,
    missing: seq<Gap>,
    lastReport: real,
    lastSig: seq<(int, int, bool)>)

  const FRESH_ORIGIN := OriginState(-1, {}, [], 0.0, [])

  datatype Arrival = Arrival(seqno: int, now: real)

  // ------------------------------------------------------ specification

  /** The contiguous prefix swallows buffered successors. */
  function Advance(hi: int, ooo: set<int>): (r: (int, set<int>))
    decreases |ooo|
  {
    if hi + 1 in ooo then Advance(hi + 1, ooo - {hi + 1}) else (hi, ooo)
  }

  predicate Seen(st: OriginState, n: int) { n <= st.hi || n in st.ooo }

  /** The state update of `on_seqno`, before reporting. */
  function Ingest(st: OriginState, a: Arrival): (r: OriginState) {
    var n := a.seqno;
    if n < 0 || Seen(st, n) then st
    else if n == st.hi + 1 then
      var (hi, ooo) := Advance(n, st.ooo);
      st.(hi := hi, ooo := ooo, missing := Trim(Remove(st.missing, n), hi))
    else
      st.(ooo := st.ooo + {n}, missing := OutOfOrder(st.missing, st.hi, n, a.now))
  }

  // ------------------------------------------- whole-history invariant

  /** The tracker state of an origin after all of its arrivals, oldest first. */
  function After(arrivals: seq<Arrival>): (st: OriginState) {
    if arrivals == [] then FRESH_ORIGIN
    else Ingest(After(arrivals[..|arrivals| - 1]), arrivals[|arrivals| - 1])
  }

  function LastOf(arrivals: seq<Arrival>): (a: Arrival)
    requires arrivals != []
  {
    arrivals[|arrivals| - 1]
  }

  function Ingested(arrivals: seq<Arrival>): (s: set<int>) {
    set i | 0 <= i < |arrivals| && arrivals[i].seqno >= 0 :: arrivals[i].seqno
  }

  function Times(arrivals: seq<Arrival>): (s: set<real>) {
    set i | 0 <= i < |arrivals| :: arrivals[i].now
  }

  /** The most recent accepted (first-time) arrival that is at least n, or -1. */
  function LatestFrom(arrivals: seq<Arrival>, n: int): (m: int) {
    if arrivals == [] then -1 else
    var earlier, last := arrivals[..|arrivals| - 1], arrivals[|arrivals| - 1].seqno;
    if 0 <= last && last !in Ingested(earlier) && last >= n then last else LatestFrom(earlier, n)
  }

  /** The tracker agrees with the plain account of what has arrived. */
  ghost predicate Exact(st: OriginState, arrivals: seq<Arrival>) {
    && st.hi >= -1
    && (forall n :: 0 <= n ==> (Seen(st, n) <==> n in Ingested(arrivals)))
    && (forall n | n in st.ooo :: n > st.hi + 1)
    && Normal(st.missing) && Above(st.missing, st.hi)
    && (forall n :: Has(st.missing, n) <==> n > st.hi && LatestFrom(arrivals, n) > n)
    && StampsFrom(st.missing, Times(arrivals))
  }

  lemma {:induction false} AdvanceMeaning(hi: int, ooo: set<int>)
    requires forall n | n in ooo :: n > hi
    ensures var (hi', ooo') := Advance(hi, ooo);
            && hi <= hi'
            && (forall n :: n <= hi' || n in ooo' <==> n <= hi || n in ooo)
            && (forall n | n in ooo' :: n > hi' + 1)
    decreases |ooo|
  {
    if hi + 1 in ooo {
      var rest := ooo - {hi + 1};
      AdvanceMeaning(hi + 1, rest);
      assert forall n :: n in ooo <==> n in rest || n == hi + 1;
    }
  }

  lemma IngestedGrows(earlier: seq<Arrival>, a: Arrival)
    ensures Ingested(earlier + [a]) == Ingested(earlier) + (if a.seqno >= 0 then {a.seqno} else {})
    ensures Times(earlier + [a]) == Times(earlier) + {a.now}
  {
    var all := earlier + [a];
    assert all[|earlier|] == a;
    forall x | x in Ingested(earlier) ensures x in Ingested(all) {
      var i :| 0 <= i < |earlier| && earlier[i].seqno >= 0 && earlier[i].seqno == x;
      assert all[i].seqno == x;
    }
    forall x | x in Times(earlier) ensures x in Times(all) {
      var i :| 0 <= i < |earlier| && earlier[i].now == x;
      assert all[i].now == x;
    }
  }

  lemma LatestGrows(earlier: seq<Arrival>, a: Arrival, n: int)
    ensures LatestFrom(earlier + [a], n)
         == if 0 <= a.seqno && a.seqno !in Ingested(earlier) && a.seqno >= n then a.seqno else LatestFrom(earlier, n)
  {
    var all := earlier + [a];
    assert all[..|all| - 1] == earlier;
  }

  /** What a first-time arrival a does to the missing list, given the new prefix end hi'. */
  ghost predicate MissingUpdated(missing: seq<Gap>, missing': seq<Gap>, hi': int, n: int, times: set<real>) {
    && Normal(missing') && Above(missing', hi') && StampsFrom(missing', times)
    && (forall m :: Has(missing', m) <==> m > hi' && m != n && (m < n || Has(missing, m)))
    && (forall m, t :: Stamped(missing, m, t) && Has(missing', m) ==> Stamped(missing', m, t))
  }

  lemma InOrderMissing(missing: seq<Gap>, n: int, hi': int, ts: real, times: set<real>)
    requires Normal(missing) && Above(missing, n - 1) && StampsFrom(missing, times) && hi' >= n
    ensures MissingUpdated(missing, Trim(Remove(missing, n), hi'), hi', n, times)
  {
    RemoveIsDeletion(missing, n, n - 1);
    TrimIsCut(Remove(missing, n), hi');
    NoNewStamps(missing, 0, 0, ts, n, times);
    NoNewStamps(Remove(missing, n), 0, 0, ts, hi', times);
  }

  function OutOfOrder(missing: seq<Gap>, hi: int, n: int, ts: real): (r: seq<Gap>) {
    Trim(Remove(Remove(Insert(missing, hi + 1, n - 1, ts), n), n), hi)
  }

  lemma OutOfOrderStamps(missing: seq<Gap>, hi: int, n: int, ts: real, times: set<real>)
    requires StampsFrom(missing, times) && ts in times
    ensures StampsFrom(OutOfOrder(missing, hi, n, ts), times)
  {
    var grown := Insert(missing, hi + 1, n - 1, ts);
    NoNewStamps(missing, hi + 1, n - 1, ts, n, times);
    NoNewStamps(grown, 0, 0, ts, n, times);
    NoNewStamps(Remove(grown, n), 0, 0, ts, n, times);
    NoNewStamps(Remove(Remove(grown, n), n), 0, 0, ts, hi, times);
  }

  lemma OutOfOrderMembers(missing: seq<Gap>, hi: int, n: int, ts: real, m: int)
    requires Normal(missing) && Above(missing, hi) && n > hi + 1
    ensures var r := OutOfOrder(missing, hi, n, ts);
            && Normal(r) && Above(r, hi)
            && (Has(r, m) <==> m > hi && m != n && (m < n || Has(missing, m)))
            && (forall t :: Stamped(missing, m, t) && Has(r, m) ==> Stamped(r, m, t))
  {
    var grown := Insert(missing, hi + 1, n - 1, ts);
    InsertIsUnion(missing, hi + 1, n - 1, ts, hi);
    RemoveIsDeletion(grown, n, hi);
    RemoveIsDeletion(Remove(grown, n), n, hi);
    TrimIsCut(Remove(Remove(grown, n), n), hi);
    AboveAll(missing, hi, m);
  }

  lemma OutOfOrderMissing(missing: seq<Gap>, hi: int, n: int, ts: real, times: set<real>)
    requires Normal(missing) && Above(missing, hi) && StampsFrom(missing, times) && n > hi + 1 && ts in times
    ensures MissingUpdated(missing, OutOfOrder(missing, hi, n, ts), hi, n, times)
  {
    OutOfOrderStamps(missing, hi, n, ts, times);
    OutOfOrderMembers(missing, hi, n, ts, n);
    var r := OutOfOrder(missing, hi, n, ts);
    forall m ensures Has(r, m) <==> m > hi && m != n && (m < n || Has(missing, m)) {
      OutOfOrderMembers(missing, hi, n, ts, m);
    }
    forall m, t | Stamped(missing, m, t) && Has(r, m) ensures Stamped(r, m, t) {
      OutOfOrderMembers(missing, hi, n, ts, m);
    }
  }

  lemma IngestMissing(st: OriginState, a: Arrival, times: set<real>)
    requires Normal(st.missing) && Above(st.missing, st.hi) && StampsFrom(st.missing, times)
    requires 0 <= a.seqno && !Seen(st, a.seqno) && a.now in times && forall n | n in st.ooo :: n > st.hi + 1
    ensures Ingest(st, a).hi >= st.hi
    ensures MissingUpdated(st.missing, Ingest(st, a).missing, Ingest(st, a).hi, a.seqno, times)
  {
    if a.seqno == st.hi + 1 {
      AdvanceMeaning(a.seqno, st.ooo);
      InOrderMissing(st.missing, a.seqno, Advance(a.seqno, st.ooo).0, a.now, times);
    } else {
      OutOfOrderMissing(st.missing, st.hi, a.seqno, a.now, times);
    }
  }

  lemma ExactStep(st: OriginState, earlier: seq<Arrival>, a: Arrival)
    requires Exact(st, earlier)
    ensures Exact(Ingest(st, a), earlier + [a])
  {
    var all, st' := earlier + [a], Ingest(st, a);
    IngestedGrows(earlier, a);
    forall n ensures LatestFrom(all, n)
         == if 0 <= a.seqno && a.seqno !in Ingested(earlier) && a.seqno >= n then a.seqno else LatestFrom(earlier, n) {
      LatestGrows(earlier, a, n);
    }
    StampsGrow(st.missing, Times(earlier), Times(all));
    if 0 <= a.seqno && !Seen(st, a.seqno) {
      IngestMissing(st, a, Times(all));
      if a.seqno == st.hi + 1 {
        AdvanceMeaning(a.seqno, st.ooo);
      }
    }
  }

  lemma {:induction false} ExactAlways(arrivals: seq<Arrival>)
    ensures Exact(After(arrivals), arrivals)
  {
    if arrivals != [] {
      var earlier, a := arrivals[..|arrivals| - 1], arrivals[|arrivals| - 1];
      ExactAlways(earlier);
      ExactStep(After(earlier), earlier, a);
      assert earlier + [a] == arrivals;
    }
  }

  /** Exact gap tracking, for every arrival sequence (any order, repeats included): the contiguous prefix and
      the buffer hold exactly what was ingested; the prefix is the longest received one; and n is listed as
      missing iff it is above the prefix and the most recent first-time arrival at or above n is above n. */
  lemma ExactTracking(arrivals: seq<Arrival>)
    ensures var st := After(arrivals);
            && (forall n :: 0 <= n ==> (n <= st.hi || n in st.ooo <==> n in Ingested(arrivals)))
            && (forall n | 0 <= n <= st.hi :: n in Ingested(arrivals))
            && st.hi + 1 !in Ingested(arrivals)
            && (forall n :: Has(st.missing, n) <==> n > st.hi && LatestFrom(arrivals, n) > n)
  {
    ExactAlways(arrivals);
    assert !Seen(After(arrivals), After(arrivals).hi + 1);
  }

  lemma {:induction false} LatestBounds(arrivals: seq<Arrival>, n: int)
    ensures LatestFrom(arrivals, n) == -1
            || (LatestFrom(arrivals, n) >= n && LatestFrom(arrivals, n) in Ingested(arrivals))
    ensures forall m | m in Ingested(arrivals) && m >= n :: LatestFrom(arrivals, n) != -1
  {
    if arrivals != [] {
      var earlier, a := arrivals[..|arrivals| - 1], arrivals[|arrivals| - 1];
      LatestBounds(earlier, n);
      IngestedGrows(earlier, a);
      assert earlier + [a] == arrivals;
    }
  }

  /** No unreceived number below the highest arrival is ever lost. */
  lemma NothingLost(arrivals: seq<Arrival>, n: int, m: int)
    requires 0 <= n < m && n !in Ingested(arrivals) && m in Ingested(arrivals)
    ensures Has(After(arrivals).missing, n)
  {
    ExactAlways(arrivals);
    LatestBounds(arrivals, n);
    assert !Seen(After(arrivals), n);
  }

  /** Gaps are listed iff something is buffered, and then the first range starts right after the prefix. */
  lemma FirstGapFollowsPrefix(arrivals: seq<Arrival>)
    ensures var st := After(arrivals);
            && (st.missing != [] <==> st.ooo != {})
            && (st.missing != [] ==> st.missing[0].start == st.hi + 1)
  {
    ExactAlways(arrivals);
    var st := After(arrivals);
    if st.missing != [] {
      var n := st.missing[0].start;
      assert Has(st.missing, n);
      LatestBounds(arrivals, n);
      assert Seen(st, LatestFrom(arrivals, n));
    }
    if st.ooo != {} {
      var m := Pick(st.ooo);
      assert Seen(st, m) && !Seen(st, st.hi + 1);
      NothingLost(arrivals, st.hi + 1, m);
      if st.missing[0].start > st.hi + 1 {
        AboveAll(st.missing, st.hi + 1, st.hi + 1);
      }
    }
  }

  /** An arrival already buffered can be listed as missing again (5 then 10 lists 5), so "missing" is not
      "not received"; the exact condition is the one of `ExactTracking`. */
  lemma ReceivedYetMissing()
    ensures var arrivals := [Arrival(5, 0.0), Arrival(10, 1.0)];
            5 in Ingested(arrivals) && Has(After(arrivals).missing, 5)
  {
  }

  // ------------------------------------------------------- confirmation

  ghost predicate ClockMonotone(arrivals: seq<Arrival>) {
    forall i, j | 0 <= i < j < |arrivals| :: arrivals[i].now <= arrivals[j].now
  }

  /** n was missing after arrival i and has stayed so. */
  ghost predicate MissingSince(arrivals: seq<Arrival>, n: int, i: nat) {
    i < |arrivals| && forall k | i < k <= |arrivals| :: Has(After(arrivals[..k]).missing, n)
  }

  lemma {:induction false} StampNeverLater(arrivals: seq<Arrival>, n: int, i: nat)
    requires ClockMonotone(arrivals) && MissingSince(arrivals, n, i)
    ensures Stamped(After(arrivals).missing, n, arrivals[i].now)
    decreases |arrivals|
  {
    var k := |arrivals|;
    var earlier, a := arrivals[..k - 1], arrivals[k - 1];
    assert arrivals[..k] == arrivals;
    ExactAlways(arrivals);
    if i == k - 1 {
      StampedByAll(After(arrivals).missing, Times(arrivals), n, arrivals[i].now);
    } else {
      forall j | i < j <= |earlier| ensures Has(After(earlier[..j]).missing, n) {
        assert earlier[..j] == arrivals[..j];
      }
      StampNeverLater(earlier, n, i);
      assert earlier[i] == arrivals[i];
      ExactAlways(earlier);
      if 0 <= a.seqno && !Seen(After(earlier), a.seqno) {
        IngestedGrows(earlier, a);
        StampsGrow(After(earlier).missing, Times(earlier), Times(earlier + [a]));
        IngestMissing(After(earlier), a, Times(earlier + [a]));
      }
    }
  }

  predicate Confirmed(g: Gap, now: real, delay: real) { now - g.ts >= delay }

  /** Confirmation is never delayed by merges, splits or trims. With a clock that does not go back, a number
      missing since some arrival i is, once `delay` has passed since then, inside a listed range flagged
      confirmed; and every range's timestamp is the time of a real past arrival. */
  lemma ConfirmedInTime(arrivals: seq<Arrival>, n: int, i: nat, now: real, delay: real)
    requires ClockMonotone(arrivals) && MissingSince(arrivals, n, i)
    requires now - arrivals[i].now >= delay
    ensures var missing := After(arrivals).missing;
            && (exists g :: g in missing && g.Contains(n))
            && (forall g | g in missing && g.Contains(n) :: Confirmed(g, now, delay) && g.ts <= arrivals[i].now)
            && (forall g | g in missing :: exists k :: 0 <= k < |arrivals| && arrivals[k].now == g.ts)
  {
    var missing := After(arrivals).missing;
    ExactAlways(arrivals);
    StampNeverLater(arrivals, n, i);
    StampedHas(missing, n, arrivals[i].now);
    HolderExists(missing, n);
    forall g | g in missing && g.Contains(n) ensures Confirmed(g, now, delay) && g.ts <= arrivals[i].now {
      var p :| 0 <= p < |missing| && missing[p] == g;
      StampIsUnique(missing, p, n, arrivals[i].now);
    }
    forall g | g in missing ensures exists k :: 0 <= k < |arrivals| && arrivals[k].now == g.ts {
      StampOf(missing, Times(arrivals), g);
    }
  }

  lemma {:induction false} HolderExists(ranges: seq<Gap>, n: int)
    requires Has(ranges, n)
    ensures exists g :: g in ranges && g.Contains(n)
  {
    if ranges[0].Contains(n) {
      assert ranges[0] in ranges;
    } else {
      HolderExists(ranges[1..], n);
      var g :| g in ranges[1..] && g.Contains(n);
      assert g in ranges;
    }
  }

  lemma {:induction false} StampOf(ranges: seq<Gap>, times: set<real>, g: Gap)
    requires StampsFrom(ranges, times) && g in ranges
    ensures g.ts in times
  {
    if g != ranges[0] {
      StampOf(ranges[1..], times, g);
    }
  }

  // ---------------------------------------------------------- reporting

  predicate Listable(missing: seq<Gap>) {
    forall g | g in missing :: 0 <= g.start <= g.end
  }

  lemma {:induction false} NormalIsListable(missing: seq<Gap>)
    requires Normal(missing) && Above(missing, -1)
    ensures Listable(missing)
  {
    if missing != [] {
      NormalIsListable(missing[1..]);
    }
  }

  /** The ranges whose confirmed flag equals `want`, in order. */
  function Bucket(missing: seq<Gap>, now: real, delay: real, want: bool): (r: seq<GapText.Range>)
    requires Listable(missing)
    ensures GapText.Printable(r)
    ensures forall x :: x in r <==>
              exists g :: g in missing && Confirmed(g, now, delay) == want && x == GapText.Range(g.start, g.end)
  {
    if missing == [] then [] else
    var g := missing[0];
    (if Confirmed(g, now, delay) == want then [GapText.Range(g.start, g.end)] else [])
      + Bucket(missing[1..], now, delay, want)
  }

  function Signature(missing: seq<Gap>, now: real, delay: real): (r: seq<(int, int, bool)>) {
    seq(|missing|,
        i requires 0 <= i < |missing| => (missing[i].start, missing[i].end, Confirmed(missing[i], now, delay)))
  }

  function BucketLine(missing: seq<Gap>, tag: string, now: real, delay: real, want: bool): (r: seq<string>)
    requires Listable(missing)
  {
    var bucket := Bucket(missing, now, delay, want);
    if bucket == [] then [] else [GapText.ShowLine(tag, bucket, want)]
  }

  const RESOLVED: string := " gaps resolved"

  /** `_maybe_report`: the new state and the lines to emit. */
  function Report(st: OriginState, tag: string, now: real, delay: real,
                  minInterval: real): (r: (OriginState, seq<string>))
    requires Listable(st.missing)
  {
    if st.missing == [] then
      if st.lastSig != [] && now - st.lastReport >= minInterval
      then (st.(lastReport := now, lastSig := []), [tag + RESOLVED]) else (st, [])
    else
      var sig := Signature(st.missing, now, delay);
      if sig == st.lastSig || now - st.lastReport < minInterval then (st, [])
      else (st.(lastReport := now, lastSig := sig),
            BucketLine(st.missing, tag, now, delay, false) + BucketLine(st.missing, tag, now, delay, true))
  }

  function Act(line: string): (r: seq<GapText.Report>) {
    match GapText.ParseLine(line) case None => [] case Some(x) => [x]
  }

  /** What `_on_gap_report` reads out of a list of lines, in order. */
  function Actionable(lines: seq<string>): (r: seq<GapText.Report>) {
    if lines == [] then [] else Act(lines[0]) + Actionable(lines[1..])
  }

  lemma NotConfirmedInResolved(tag: string, p: nat)
    requires GapText.GoodLabel(tag)
    ensures !GapText.MatchAt(tag + RESOLVED, GapText.CONFIRMED, p)
  {
    var text := tag + RESOLVED;
    assert '(' !in RESOLVED;
    if GapText.MatchAt(text, GapText.CONFIRMED, p) {
      GapText.MatchMeansChars(text, GapText.CONFIRMED, p, 1);
      assert p + 1 < |tag| && tag[p + 1] in tag;
      GapText.MatchMeansChars(text, GapText.CONFIRMED, p, |tag| - p);
    }
  }

  lemma ResolvedIsInert(tag: string)
    requires GapText.GoodLabel(tag)
    ensures GapText.ParseLine(tag + RESOLVED) == None
  {
    var p := GapText.Find(tag + RESOLVED, GapText.CONFIRMED, 0);
    if p >= 0 {
      NotConfirmedInResolved(tag, p);
    }
  }

  lemma ActionableCons(line: string, rest: seq<string>)
    ensures Actionable([line] + rest) == Act(line) + Actionable(rest)
  {
    assert ([line] + rest)[1..] == rest;
  }

  lemma ActionableAppend(first: seq<string>, rest: seq<string>)
    requires |first| <= 1
    ensures Actionable(first + rest) == Actionable(first) + Actionable(rest)
  {
    if first == [] {
      assert first + rest == rest;
    } else {
      assert first == [first[0]] + [];
      ActionableCons(first[0], rest);
      ActionableCons(first[0], []);
    }
  }

  lemma BucketLineActs(missing: seq<Gap>, tag: string, now: real, delay: real, want: bool)
    requires Listable(missing) && GapText.GoodLabel(tag) && GapText.Strip(tag) != ""
    ensures Actionable(BucketLine(missing, tag, now, delay, want))
         == if want && Bucket(missing, now, delay, want) != []
            then [GapText.Report(GapText.Strip(tag), Bucket(missing, now, delay, want))] else []
  {
    var bucket := Bucket(missing, now, delay, want);
    if bucket != [] {
      if want {
        GapText.ConfirmedLineRoundTrip(tag, bucket);
      } else {
        GapText.SuspectedLineIsInert(tag, bucket);
      }
      var lines := [GapText.ShowLine(tag, bucket, want)];
      assert lines[1..] == [];
    }
  }

  /** From tracker to backend through text: for every origin id, of all the lines one report emits the backend
      acts on at most one, and it then reads back exactly the confirmed ranges of the missing list. */
  lemma ReportRoundTrip(st: OriginState, origin: Bytes, now: real, delay: real, minInterval: real)
    requires |origin| == 8 && Listable(st.missing) && GapText.Strip(GapText.Label(origin)) != ""
    ensures var tag := GapText.Label(origin);
            var confirmed := Bucket(st.missing, now, delay, true);
            var lines := Report(st, tag, now, delay, minInterval).1;
            Actionable(lines) == if st.missing == [] || lines == [] || confirmed == [] then []
                                 else [GapText.Report(GapText.Strip(tag), confirmed)]
  {
    var tag := GapText.Label(origin);
    GapText.LabelIsGood(origin);
    var lines := Report(st, tag, now, delay, minInterval).1;
    if st.missing == [] {
      ResolvedIsInert(tag);
      assert lines != [] ==> lines[1..] == [];
    } else if lines != [] {
      BucketLineActs(st.missing, tag, now, delay, false);
      BucketLineActs(st.missing, tag, now, delay, true);
      ActionableAppend(BucketLine(st.missing, tag, now, delay, false), BucketLine(st.missing, tag, now, delay, true));
    }
  }

  /** `on_seqno` on one origin's state. */
  function OnArrival(st: OriginState, tag: string, a: Arrival, delay: real,
                     minInterval: real): (r: (OriginState, seq<string>))
    requires Listable(Ingest(st, a).missing)
  {
    if a.seqno < 0 || Seen(st, a.seqno) then (st, []) else Report(Ingest(st, a), tag, a.now, delay, minInterval)
  }

  /** Same tracking state; reporting bookkeeping may differ. */
  predicate SameGaps(a: OriginState, b: OriginState) {
    a.hi == b.hi && a.ooo == b.ooo && a.missing == b.missing
  }

  lemma SameGapsExact(st: OriginState, arrivals: seq<Arrival>)
    requires SameGaps(st, After(arrivals))
    ensures Exact(st, arrivals) && Listable(st.missing)
  {
    ExactAlways(arrivals);
    NormalIsListable(st.missing);
  }

  lemma SameGapsStep(st: OriginState, arrivals: seq<Arrival>, a: Arrival)
    requires SameGaps(st, After(arrivals))
    ensures SameGaps(Ingest(st, a), After(arrivals + [a]))
  {
    assert (arrivals + [a])[..|arrivals|] == arrivals;
  }

  /** The tracker state of an origin after all of its arrivals, reporting included. */
  function Tracked(arrivals: seq<Arrival>, tag: string, delay: real, minInterval: real): (st: OriginState)
    ensures SameGaps(st, After(arrivals))
  {
    if arrivals == [] then FRESH_ORIGIN else
    var earlier, a := arrivals[..|arrivals| - 1], arrivals[|arrivals| - 1];
    ArrivalIsListable(arrivals, Tracked(earlier, tag, delay, minInterval));
    OnArrival(Tracked(earlier, tag, delay, minInterval), tag, a, delay, minInterval).0
  }

  /** The lines emitted on the newest of these arrivals. */
  function LinesAt(arrivals: seq<Arrival>, tag: string, delay: real, minInterval: real): (lines: seq<string>)
    requires arrivals != []
  {
    var earlier, a := arrivals[..|arrivals| - 1], arrivals[|arrivals| - 1];
    ArrivalIsListable(arrivals, Tracked(earlier, tag, delay, minInterval));
    OnArrival(Tracked(earlier, tag, delay, minInterval), tag, a, delay, minInterval).1
  }

  lemma ArrivalIsListable(arrivals: seq<Arrival>, st: OriginState)
    requires arrivals != [] && SameGaps(st, After(arrivals[..|arrivals| - 1]))
    ensures Listable(Ingest(st, arrivals[|arrivals| - 1]).missing)
    ensures SameGaps(Ingest(st, arrivals[|arrivals| - 1]), After(arrivals))
  {
    SameGapsExact(Ingest(st, arrivals[|arrivals| - 1]), arrivals);
  }

  // ------------------------------------------------- the mutable object

  class Tracker {
    const confirmDelay: real
    const minReportInterval: real
    var origins: map<Bytes, OriginState>
    /** Every call of `OnSeqno` with a sequence number that is not negative, per origin. */
    ghost var history: map<Bytes, seq<Arrival>>

    constructor (confirmDelaySeconds: real, minReportIntervalSeconds: real)
      ensures Valid() && origins == map[] && history == map[]
      ensures confirmDelay == (if confirmDelaySeconds < 0.0 then 0.0 else confirmDelaySeconds)
      ensures minReportInterval == (if minReportIntervalSeconds < 0.0 then 0.0 else minReportIntervalSeconds)
    {
      confirmDelay := if confirmDelaySeconds < 0.0 then 0.0 else confirmDelaySeconds;
      minReportInterval := if minReportIntervalSeconds < 0.0 then 0.0 else minReportIntervalSeconds;
      origins, history := map[], map[];
    }

    /** The state of an origin is what its arrivals, one after the other, make of a fresh one. */
    ghost predicate Follows(o: Bytes)
      reads this
      requires o in origins && o in history
    {
      origins[o] == Tracked(history[o], GapText.Label(o), confirmDelay, minReportInterval)
    }

    ghost predicate Valid()
      reads this
    {
      origins.Keys == history.Keys && forall o | o in origins :: Follows(o)
    }

    function StateOf(o: Bytes): OriginState
      reads this
    {
      if o in origins then origins[o] else FRESH_ORIGIN
    }

    ghost function HistoryOf(o: Bytes): seq<Arrival>
      reads this
    {
      if o in history then history[o] else []
    }

    lemma StateIsExact(o: Bytes, a: Arrival)
      requires Valid()
      ensures Exact(StateOf(o), HistoryOf(o))
      ensures Exact(Ingest(StateOf(o), a), HistoryOf(o) + [a]) && Listable(Ingest(StateOf(o), a).missing)
      ensures SameGaps(Ingest(StateOf(o), a), After(HistoryOf(o) + [a]))
      ensures var r := OnArrival(StateOf(o), GapText.Label(o), a, confirmDelay, minReportInterval);
              && r.0 == Tracked(HistoryOf(o) + [a], GapText.Label(o), confirmDelay, minReportInterval)
              && r.1 == LinesAt(HistoryOf(o) + [a], GapText.Label(o), confirmDelay, minReportInterval)
    {
      assert (HistoryOf(o) + [a])[..|HistoryOf(o)|] == HistoryOf(o);
      assert o in origins ==> Follows(o);
      SameGapsExact(StateOf(o), HistoryOf(o));
      SameGapsStep(StateOf(o), HistoryOf(o), a);
      SameGapsExact(Ingest(StateOf(o), a), HistoryOf(o) + [a]);
    }

    method OnSeqno(origin: Bytes, seqno: int, now: real) returns (lines: seq<string>)
      requires Valid()
      modifies this
      ensures Valid()
      ensures seqno < 0 ==> lines == [] && origins == old(origins) && history == old(history)
      ensures seqno >= 0 ==>
                && history == old(history)[origin := old(HistoryOf(origin)) + [Arrival(seqno, now)]]
                && lines == LinesAt(HistoryOf(origin), GapText.Label(origin), confirmDelay, minReportInterval)
                && origins.Keys == old(origins).Keys + {origin}
                && forall o | o in old(origins) && o != origin :: origins[o] == old(origins)[o]
    {
      if seqno < 0 {
        return [];
      }
      var st := StateOf(origin);
      StateIsExact(origin, Arrival(seqno, now));
      history := history[origin := HistoryOf(origin) + [Arrival(seqno, now)]];
      st, lines := Admit(st, GapText.Label(origin), seqno, now);
      origins := origins[origin := st];
    }

    method Admit(st: OriginState, tag: string, seqno: int, now: real) returns (r: OriginState, lines: seq<string>)
      requires seqno >= 0 && Normal(st.missing) && Listable(Ingest(st, Arrival(seqno, now)).missing)
      ensures (r, lines) == OnArrival(st, tag, Arrival(seqno, now), confirmDelay, minReportInterval)
    {
      if seqno <= st.hi || seqno in st.ooo {
        return st, [];
      }
      r := Track(st, seqno, now);
      r, lines := MaybeReport(r, tag, now);
    }

    static method Track(st: OriginState, seqno: int, now: real) returns (r: OriginState)
      requires seqno >= 0 && !Seen(st, seqno) && Normal(st.missing)
      ensures r == Ingest(st, Arrival(seqno, now))
    {
      var hi, ooo, missing := st.hi, st.ooo, st.missing;
      if seqno == hi + 1 {
        hi := seqno;
        while hi + 1 in ooo
          invariant Advance(hi, ooo) == Advance(seqno, st.ooo)
          decreases |ooo|
        {
          ooo := ooo - {hi + 1};
          hi := hi + 1;
        }
      } else {
        missing := AddRange(missing, hi + 1, seqno - 1, now);
        ooo := ooo + {seqno};
        missing := RemoveSeq(missing, seqno);
      }
      missing := RemoveSeq(missing, seqno);
      if missing != [] {
        missing := TrimBelow(missing, hi);
      }
      r := OriginState(hi, ooo, missing, st.lastReport, st.lastSig);
    }

    method MaybeReport(st: OriginState, tag: string, now: real) returns (st': OriginState, lines: seq<string>)
      requires Listable(st.missing)
      ensures (st', lines) == Report(st, tag, now, confirmDelay, minReportInterval)
    {
      if st.missing == [] {
        if st.lastSig != [] && now - st.lastReport >= minReportInterval {
          return st.(lastReport := now, lastSig := []), [tag + RESOLVED];
        }
        return st, [];
      }
      var sig := Signature(st.missing, now, confirmDelay);
      if sig == st.lastSig {
        return st, [];
      }
      if now - st.lastReport < minReportInterval {
        return st, [];
      }
      lines := BucketLine(st.missing, tag, now, confirmDelay, false)
             + BucketLine(st.missing, tag, now, confirmDelay, true);
      st' := st.(lastReport := now, lastSig := sig);
    }
  }
}
