/** How far gap reports can repair anything. Without number 0 the tracker's prefix never starts, so every new
    arrival lists all lower numbers again, and the bounded request plan asks for the lowest of them. */
module GapRepair {
  import opened Basics
  import opened MeshFrame
  import opened GapRanges
  import opened GapTracker
  import opened GapReports
  import opened GapRequests
  import opened ChatNetwork
  import GapText
  import MeshGaps
  import ChatConflict

  // ------------------------------------------------ the plan from number 0

  /** A chunk that is followed at once by another one has the full length. */
  predicate FullWhenAdjacent(rs: seq<GapText.Range>, len: int) {
    |rs| >= 2 ==>
      && (rs[1].start == rs[0].end + 1 ==> rs[0].end == rs[0].start + len - 1)
      && FullWhenAdjacent(rs[1..], len)
  }

  lemma {:induction false} ChunkIsFull(s: int, e: int, len: int)
    requires len >= 1
    ensures FullWhenAdjacent(Chunk(s, e, len), len)
    ensures (s <= e ==> Chunk(s, e, len) != [] && Chunk(s, e, len)[0].start == s)
    decreases e - s
  {
    if s <= e {
      var end := if s + len - 1 > e then e else s + len - 1;
      ChunkIsFull(end + 1, e, len);
      assert Chunk(s, e, len)[1..] == Chunk(end + 1, e, len);
    }
  }

  lemma {:induction false} FullConcat(a: seq<GapText.Range>, b: seq<GapText.Range>, len: int, mid: int)
    requires FullWhenAdjacent(a, len) && FullWhenAdjacent(b, len) && Below(a, mid) && From(b, mid + 1)
    ensures FullWhenAdjacent(a + b, len)
  {
    if a == [] {
      assert a + b == b;
    } else {
      FullConcat(a[1..], b, len, mid);
      assert (a + b)[1..] == a[1..] + b;
      assert |a| >= 2 ==> (a + b)[1] == a[1];
    }
  }

  lemma ChunksApart(r: GapText.Range, rest: seq<GapText.Range>, d: nat, len: int)
    requires len >= 1 && r.start <= r.end && From(rest, r.end + d + 2) && Spaced(rest, d)
    ensures Below(Chunk(r.start, r.end, len), r.end + 1) && From(ChunkAll(rest, len), r.end + 2)
  {
    ChunkPartitions(r.start, r.end, len, r.start);
    FromLower(rest, r.end + d + 2, r.end + 2);
    ChunkAllPartitions(rest, d, len, r.end + 2, r.start);
  }

  lemma {:induction false} ChunkAllIsFull(rs: seq<GapText.Range>, d: nat, len: int)
    requires len >= 1 && Spaced(rs, d)
    ensures FullWhenAdjacent(ChunkAll(rs, len), len)
  {
    if rs != [] {
      ChunkAllIsFull(rs[1..], d, len);
      ChunkIsFull(rs[0].start, rs[0].end, len);
      ChunksApart(rs[0], rs[1..], d, len);
      FullConcat(Chunk(rs[0].start, rs[0].end, len), ChunkAll(rs[1..], len), len, rs[0].end + 1);
    }
  }

  lemma FullPlanIsFull(parsed: seq<GapText.Range>, d: nat, len: int)
    requires parsed != [] && Proper(parsed) && len >= 1
    ensures FullWhenAdjacent(FullPlan(parsed, d, len), len)
  {
    SortKeeps(parsed, 0);
    var sorted := Sort(parsed);
    CoalesceShape(sorted[0], sorted[1..], d, 0);
    ChunkAllIsFull(CoalesceFrom(sorted[0], sorted[1..], d), d, len);
  }

  lemma FirstChunk(rs: seq<GapText.Range>, len: int, lo: int, hi: int)
    requires len >= 1 && Ascending(rs, len) && FullWhenAdjacent(rs, len) && From(rs, lo)
    requires len <= hi - lo && forall n | lo <= n < hi :: In(rs, n)
    ensures rs != [] && rs[0] == GapText.Range(lo, lo + len - 1)
    ensures forall n | lo + len <= n < hi :: In(rs[1..], n)
  {
    assert In(rs, lo);
    NextChunkStarts(rs, len, lo);
    var next := rs[0].end + 1;
    if next < hi {
      assert In(rs, next);
      NextChunkStarts(rs[1..], len, next);
    }
    forall n | lo + len <= n < hi ensures In(rs[1..], n) {
      assert In(rs, n);
    }
  }

  lemma NextChunkStarts(rest: seq<GapText.Range>, len: int, next: int)
    requires Ascending(rest, len) && From(rest, next) && In(rest, next)
    ensures rest[0].start == next
  {
    if rest[0].start != next {
      FromMember(rest[1..], rest[0].end + 1, next);
    }
  }

  /** Chunk j, where lo to hi is covered without a gap. */
  lemma {:induction false} ChunkAt(rs: seq<GapText.Range>, len: int, lo: int, hi: int, j: nat)
    requires len >= 1 && Ascending(rs, len) && FullWhenAdjacent(rs, len) && From(rs, lo)
    requires (j + 1) * len <= hi - lo && forall n | lo <= n < hi :: In(rs, n)
    ensures j < |rs| && rs[j] == GapText.Range(lo + j * len, lo + j * len + len - 1)
    decreases j
  {
    assert (j + 1) * len == j * len + len;
    MulOrder(j + 1, 0, len);
    FirstChunk(rs, len, lo, hi);
    if j > 0 {
      assert j * len == (j - 1) * len + len;
      FromLower(rs[1..], rs[0].end + 1, lo + len);
      ChunkAt(rs[1..], len, lo + len, hi, j - 1);
    }
  }

  lemma {:induction false} InAt(rs: seq<GapText.Range>, n: int) returns (i: nat)
    requires In(rs, n)
    ensures i < |rs| && rs[i].start <= n <= rs[i].end
  {
    if rs[0].start <= n <= rs[0].end {
      i := 0;
    } else {
      i := InAt(rs[1..], n);
      i := i + 1;
    }
  }

  lemma {:induction false} AtIn(rs: seq<GapText.Range>, i: nat, n: int)
    requires i < |rs| && rs[i].start <= n <= rs[i].end
    ensures In(rs, n)
  {
    if i > 0 {
      AtIn(rs[1..], i - 1, n);
    }
  }

  /** Full chunks from 0 cover exactly the numbers below their total length. */
  lemma FullChunksCover(sent: seq<GapText.Range>, len: int, n: int)
    requires len >= 1 && forall j | 0 <= j < |sent| :: sent[j] == GapText.Range(j * len, j * len + len - 1)
    ensures In(sent, n) <==> 0 <= n < |sent| * len
  {
    if In(sent, n) {
      var i := InAt(sent, n);
      InBlock(i, |sent|, len, n);
    }
    if 0 <= n < |sent| * len {
      var i := BlockOf(n, |sent|, len);
      AtIn(sent, i, n);
    }
  }

  /** Where everything from 0 up to the request bound is reported, the requests ask for exactly the numbers below
      it, whatever else is reported. */
  lemma PlanFromZero(parsed: seq<GapText.Range>, mergeDistance: int, maxRangeLen: int, maxRequests: int, top: int,
                     n: int)
    requires parsed != [] && Proper(parsed) && From(parsed, 0) && forall m | 0 <= m < top :: In(parsed, m)
    requires AtLeast(maxRequests, 1) * AtLeast(maxRangeLen, 1) <= top
    ensures In(Plan(parsed, mergeDistance, maxRangeLen, maxRequests), n)
       <==> 0 <= n < AtLeast(maxRequests, 1) * AtLeast(maxRangeLen, 1)
  {
    var d, len, k := AtLeast(mergeDistance, 0), AtLeast(maxRangeLen, 1), AtLeast(maxRequests, 1);
    var full, sent := FullPlan(parsed, d, len), Plan(parsed, mergeDistance, maxRangeLen, maxRequests);
    FullPlanFromZero(parsed, d, len, top);
    forall j | 0 <= j < k ensures j < |full| && full[j] == GapText.Range(j * len, j * len + len - 1) {
      MulMonotone(k, j + 1, len);
      ChunkAt(full, len, 0, top, j);
    }
    ChunkAt(full, len, 0, top, k - 1);
    assert sent == full[..k];
    FullChunksCover(sent, len, n);
  }

  lemma FullPlanFromZero(parsed: seq<GapText.Range>, d: nat, len: int, top: int)
    requires parsed != [] && Proper(parsed) && From(parsed, 0) && len >= 1 && forall m | 0 <= m < top :: In(parsed, m)
    ensures var full := FullPlan(parsed, d, len);
            && Ascending(full, len) && FullWhenAdjacent(full, len) && From(full, 0)
            && forall m | 0 <= m < top :: In(full, m)
  {
    var full := FullPlan(parsed, d, len);
    FullPlanIsFull(parsed, d, len);
    FullPlanIsBridge(parsed, d, len, 0);
    forall m | 0 <= m < top ensures In(full, m) {
      FullPlanIsBridge(parsed, d, len, m);
      assert In(parsed, m) && m - m - 1 <= d;
    }
    if full != [] {
      FullPlanIsBridge(parsed, d, len, full[0].start);
      var a :| In(parsed, a) && a <= full[0].start;
      FromMember(parsed, 0, a);
      AscendingFrom(full, len, 0);
    }
  }

  lemma {:induction false} AscendingFrom(rs: seq<GapText.Range>, len: int, lo: int)
    requires Ascending(rs, len) && rs != [] && lo <= rs[0].start
    ensures From(rs, lo)
  {
    FromLower(rs[1..], rs[0].end + 1, lo);
  }

  // ------------------------------------------------- what a report lists

  /** Every number is positive, and the last one is new to the tracker. */
  ghost predicate NewAboveZero(arrivals: seq<Arrival>) {
    && arrivals != [] && (forall a | a in arrivals :: a.seqno >= 1)
    && arrivals[|arrivals| - 1].seqno !in Ingested(arrivals[..|arrivals| - 1])
  }

  lemma NoPrefix(arrivals: seq<Arrival>)
    requires forall a | a in arrivals :: a.seqno >= 1
    ensures After(arrivals).hi == -1
  {
    ExactAlways(arrivals);
    assert 0 !in Ingested(arrivals);
  }

  /** A new arrival lists every lower number, received or not. */
  lemma LowerAllMissing(arrivals: seq<Arrival>, n: int)
    requires NewAboveZero(arrivals) && 0 <= n < LastOf(arrivals).seqno
    ensures Has(After(arrivals).missing, n)
  {
    NoPrefix(arrivals);
    ExactTracking(arrivals);
    assert LastOf(arrivals) in arrivals;
    assert LatestFrom(arrivals, n) == LastOf(arrivals).seqno;
  }

  lemma FirstGapReaches(missing: seq<Gap>, top: int)
    requires Normal(missing) && Above(missing, -1) && top >= 1 && forall n | 0 <= n < top :: Has(missing, n)
    ensures missing != [] && missing[0].start == 0 && missing[0].end >= top - 1
  {
    assert Has(missing, 0);
    var next := missing[0].end + 1;
    AboveAll(missing[1..], next, 0);
    AboveAll(missing[1..], next, next);
    assert next < top ==> Has(missing, next);
  }

  lemma ZeroMissingSince(arrivals: seq<Arrival>)
    requires arrivals != [] && forall a | a in arrivals :: a.seqno >= 1
    ensures MissingSince(arrivals, 0, 0)
  {
    forall k | 0 < k <= |arrivals| ensures Has(After(arrivals[..k]).missing, 0) {
      var some := arrivals[..k];
      assert forall a | a in some :: a in arrivals;
      assert some[0] in some && 0 !in Ingested(some) && some[0].seqno in Ingested(some);
      NothingLost(some, 0, some[0].seqno);
    }
  }

  /** The first gap is the oldest. */
  lemma FirstGapOldest(arrivals: seq<Arrival>, g: Gap)
    requires ClockMonotone(arrivals) && arrivals != [] && forall a | a in arrivals :: a.seqno >= 1
    requires var missing := After(arrivals).missing; missing != [] && missing[0].Contains(0) && g in missing
    ensures After(arrivals).missing[0].ts <= g.ts
  {
    var missing := After(arrivals).missing;
    ZeroMissingSince(arrivals);
    StampNeverLater(arrivals, 0, 0);
    ExactAlways(arrivals);
    StampIsUnique(missing, 0, 0, arrivals[0].now);
    StampOf(missing, Times(arrivals), g);
    var k :| 0 <= k < |arrivals| && arrivals[k].now == g.ts;
    assert arrivals[0].now <= arrivals[k].now;
  }

  lemma {:induction false} BucketShape(missing: seq<Gap>, now: real, delay: real, lo: int)
    requires Normal(missing) && Above(missing, lo) && Listable(missing)
    ensures Proper(Bucket(missing, now, delay, true)) && From(Bucket(missing, now, delay, true), lo + 1)
  {
    if missing != [] {
      var g, rest := missing[0], Bucket(missing[1..], now, delay, true);
      BucketShape(missing[1..], now, delay, g.end + 1);
      FromLower(rest, g.end + 2, lo + 1);
      assert [] + rest == rest;
    }
  }

  lemma {:induction false} BucketIn(missing: seq<Gap>, now: real, delay: real, n: int)
    requires Listable(missing) && In(Bucket(missing, now, delay, true), n)
    ensures Has(missing, n)
  {
    var g, rest := missing[0], Bucket(missing[1..], now, delay, true);
    assert [] + rest == rest;
    if !g.Contains(n) {
      BucketIn(missing[1..], now, delay, n);
    }
  }

  /** If anything is confirmed, everything below the last arrival is. */
  lemma ConfirmedFromZero(arrivals: seq<Arrival>, now: real, delay: real)
    requires NewAboveZero(arrivals) && ClockMonotone(arrivals)
    ensures var missing := After(arrivals).missing;
            && Normal(missing) && Listable(missing)
            && var confirmed := Bucket(missing, now, delay, true);
               && Proper(confirmed) && From(confirmed, 0)
               && (confirmed != [] ==> forall n | 0 <= n < LastOf(arrivals).seqno :: In(confirmed, n))
  {
    var missing, top := After(arrivals).missing, LastOf(arrivals).seqno;
    ExactAlways(arrivals);
    NoPrefix(arrivals);
    NormalIsListable(missing);
    BucketShape(missing, now, delay, -1);
    forall n | 0 <= n < top ensures Has(missing, n) {
      LowerAllMissing(arrivals, n);
    }
    assert LastOf(arrivals) in arrivals;
    FirstGapReaches(missing, top);
    var confirmed := Bucket(missing, now, delay, true);
    if confirmed != [] {
      assert confirmed[0] in confirmed;
      var g :| g in missing && Confirmed(g, now, delay);
      FirstGapOldest(arrivals, g);
      assert confirmed == [GapText.Range(missing[0].start, missing[0].end)] + Bucket(missing[1..], now, delay, true);
    }
  }

  // ------------------------------------------------------- what is asked

  /** The backend acts on this report, emitted on the last arrival. */
  ghost predicate ActsOn(arrivals: seq<Arrival>, origin: NodeId, delay: real, minInterval: real, report: GapText.Report)
    requires arrivals != []
  {
    report in Actionable(LinesAt(arrivals, GapText.Label(origin), delay, minInterval))
  }

  lemma ReportedIsConfirmed(arrivals: seq<Arrival>, origin: NodeId, delay: real, minInterval: real,
                            report: GapText.Report)
    requires arrivals != [] && GapText.Strip(GapText.Label(origin)) != ""
    requires ActsOn(arrivals, origin, delay, minInterval, report)
    ensures FirstTime(arrivals) && Listable(After(arrivals).missing)
    ensures report.ranges == Bucket(After(arrivals).missing, LastOf(arrivals).now, delay, true) != []
  {
    var st := ArrivalReported(arrivals, GapText.Label(origin), delay, minInterval);
    ReportRoundTrip(st, origin, LastOf(arrivals).now, delay, minInterval);
  }

  /** From arrivals to requests, through the tracker, the text and the plan. When the newest arrival is numbered at
      least max_requests * max_range_len, a gap report makes the backend ask for exactly the numbers below that
      bound, whatever was received of them and whatever is missing above. */
  lemma ReportAsksLowest(arrivals: seq<Arrival>, origin: NodeId, delay: real, minInterval: real,
                         report: GapText.Report, mergeDistance: int, maxRangeLen: int, maxRequests: int, n: int)
    requires NewAboveZero(arrivals) && ClockMonotone(arrivals)
    requires GapText.Strip(GapText.Label(origin)) != ""
    requires ActsOn(arrivals, origin, delay, minInterval, report)
    requires AtLeast(maxRequests, 1) * AtLeast(maxRangeLen, 1) <= LastOf(arrivals).seqno
    ensures report.ranges != []
    ensures In(Plan(report.ranges, mergeDistance, maxRangeLen, maxRequests), n)
       <==> 0 <= n < AtLeast(maxRequests, 1) * AtLeast(maxRangeLen, 1)
  {
    var now := LastOf(arrivals).now;
    ReportedIsConfirmed(arrivals, origin, delay, minInterval, report);
    ConfirmedFromZero(arrivals, now, delay);
    PlanFromZero(report.ranges, mergeDistance, maxRangeLen, maxRequests, LastOf(arrivals).seqno, n);
  }

  ghost predicate Increasing(arrivals: seq<Arrival>) {
    forall i, j | 0 <= i < j < |arrivals| :: arrivals[i].seqno < arrivals[j].seqno
  }

  lemma MissingBelowLast(arrivals: seq<Arrival>, n: int)
    requires Increasing(arrivals) && arrivals != [] && Has(After(arrivals).missing, n)
    ensures n < LastOf(arrivals).seqno
  {
    ExactTracking(arrivals);
    LatestBounds(arrivals, n);
    var m := LatestFrom(arrivals, n);
    ExactAlways(arrivals);
    var i :| 0 <= i < |arrivals| && arrivals[i].seqno == m;
  }

  lemma {:induction false} InPrefix(rs: seq<GapText.Range>, k: nat, n: int)
    requires k <= |rs| && In(rs[..k], n)
    ensures In(rs, n)
  {
    var i := InAt(rs[..k], n);
    AtIn(rs, i, n);
  }

  lemma PlanWithin(parsed: seq<GapText.Range>, mergeDistance: int, maxRangeLen: int, maxRequests: int, n: int)
    returns (b: int)
    requires parsed != [] && Proper(parsed) && In(Plan(parsed, mergeDistance, maxRangeLen, maxRequests), n)
    ensures In(parsed, b) && n <= b
  {
    var d, len := AtLeast(mergeDistance, 0), AtLeast(maxRangeLen, 1);
    var sent := Plan(parsed, mergeDistance, maxRangeLen, maxRequests);
    PlanIsLowestPrefix(parsed, mergeDistance, maxRangeLen, maxRequests);
    assert sent == FullPlan(parsed, d, len)[..|sent|];
    InPrefix(FullPlan(parsed, d, len), |sent|, n);
    var a, b' :| In(parsed, a) && In(parsed, b') && a <= n <= b' && b' - a - 1 <= d;
    b := b';
  }

  lemma NewWhenIncreasing(arrivals: seq<Arrival>)
    requires Increasing(arrivals) && arrivals != [] && forall a | a in arrivals :: a.seqno >= 1
    ensures NewAboveZero(arrivals)
  {
  }

  /** Messages that arrive in order, with gaps: a lost one numbered at or above the bound is never asked for,
      however often the gap is reported. */
  lemma NeverAskedFor(arrivals: seq<Arrival>, origin: NodeId, delay: real, minInterval: real,
                      report: GapText.Report, mergeDistance: int, maxRangeLen: int, maxRequests: int, n: int)
    requires Increasing(arrivals) && arrivals != [] && forall a | a in arrivals :: a.seqno >= 1
    requires ClockMonotone(arrivals) && GapText.Strip(GapText.Label(origin)) != ""
    requires ActsOn(arrivals, origin, delay, minInterval, report)
    requires n >= AtLeast(maxRequests, 1) * AtLeast(maxRangeLen, 1)
    ensures report.ranges != [] && !In(Plan(report.ranges, mergeDistance, maxRangeLen, maxRequests), n)
  {
    var now := LastOf(arrivals).now;
    NewWhenIncreasing(arrivals);
    ReportedIsConfirmed(arrivals, origin, delay, minInterval, report);
    if AtLeast(maxRequests, 1) * AtLeast(maxRangeLen, 1) <= LastOf(arrivals).seqno {
      ReportAsksLowest(arrivals, origin, delay, minInterval, report, mergeDistance, maxRangeLen, maxRequests, n);
    } else if In(Plan(report.ranges, mergeDistance, maxRangeLen, maxRequests), n) {
      ConfirmedFromZero(arrivals, now, delay);
      var b := PlanWithin(report.ranges, mergeDistance, maxRangeLen, maxRequests, n);
      BucketIn(After(arrivals).missing, now, delay, b);
      MissingBelowLast(arrivals, b);
    }
  }

  /** The same over runs: without restart and wrap every arrival is numbered 1 or more. */
  lemma RunAsksLowest(cw: ChatWorld, h: ChatConflict.History, arrivals: seq<Arrival>, origin: NodeId,
                      delay: real, minInterval: real, report: GapText.Report,
                      mergeDistance: int, maxRangeLen: int, maxRequests: int, n: int)
    requires MeshGaps.SteadyHistory(cw, h) && MeshGaps.FedByRun(h, origin, arrivals) && arrivals != []
    requires ClockMonotone(arrivals) && GapText.Strip(GapText.Label(origin)) != ""
    requires ActsOn(arrivals, origin, delay, minInterval, report)
    ensures report.ranges != []
    ensures AtLeast(maxRequests, 1) * AtLeast(maxRangeLen, 1) <= LastOf(arrivals).seqno ==>
              (In(Plan(report.ranges, mergeDistance, maxRangeLen, maxRequests), n)
               <==> 0 <= n < AtLeast(maxRequests, 1) * AtLeast(maxRangeLen, 1))
    ensures Increasing(arrivals) && n >= AtLeast(maxRequests, 1) * AtLeast(maxRangeLen, 1) ==>
              !In(Plan(report.ranges, mergeDistance, maxRangeLen, maxRequests), n)
  {
    MeshGaps.ArrivalsArePositive(cw, h, origin, arrivals);
    ReportedIsConfirmed(arrivals, origin, delay, minInterval, report);
    if AtLeast(maxRequests, 1) * AtLeast(maxRangeLen, 1) <= LastOf(arrivals).seqno {
      ReportAsksLowest(arrivals, origin, delay, minInterval, report, mergeDistance, maxRangeLen, maxRequests, n);
    }
    if Increasing(arrivals) && n >= AtLeast(maxRequests, 1) * AtLeast(maxRangeLen, 1) {
      NeverAskedFor(arrivals, origin, delay, minInterval, report, mergeDistance, maxRangeLen, maxRequests, n);
    }
  }

  lemma PartIsFed(h: ChatConflict.History, origin: NodeId, arrivals: seq<Arrival>, k: nat)
    requires MeshGaps.FedByRun(h, origin, arrivals) && ClockMonotone(arrivals) && k < |arrivals|
    ensures MeshGaps.FedByRun(h, origin, arrivals[..k + 1]) && ClockMonotone(arrivals[..k + 1])
  {
    assert forall a | a in arrivals[..k + 1] :: a in arrivals;
  }

  /** And requests are made. Once `delay` plus `minInterval` have passed since the first arrival, the backend has, by
      the next first-time arrival, acted on a report that lists number 0; if the arrival that caused it is numbered at
      least the bound, it asks for exactly the numbers below the bound. */
  lemma RunAsksInTime(cw: ChatWorld, h: ChatConflict.History, arrivals: seq<Arrival>, origin: NodeId,
                      delay: real, minInterval: real, mergeDistance: int, maxRangeLen: int, maxRequests: int)
    returns (k: nat, report: GapText.Report)
    requires MeshGaps.SteadyHistory(cw, h) && MeshGaps.FedByRun(h, origin, arrivals) && FirstTime(arrivals)
    requires ClockMonotone(arrivals) && GapText.Strip(GapText.Label(origin)) != ""
    requires delay >= 0.0 && minInterval >= 0.0 && arrivals[0].now >= 0.0
    requires LastOf(arrivals).now - arrivals[0].now >= delay + minInterval
    ensures k < |arrivals| && ActsOn(arrivals[..k + 1], origin, delay, minInterval, report) && Covers(report.ranges, 0)
    ensures report.ranges != []
    ensures AtLeast(maxRequests, 1) * AtLeast(maxRangeLen, 1) <= arrivals[k].seqno ==>
              forall n :: In(Plan(report.ranges, mergeDistance, maxRangeLen, maxRequests), n)
                          <==> 0 <= n < AtLeast(maxRequests, 1) * AtLeast(maxRangeLen, 1)
  {
    k, report := ZeroIsReported(cw, h, arrivals, origin, delay, minInterval);
    PartIsFed(h, origin, arrivals, k);
    if AtLeast(maxRequests, 1) * AtLeast(maxRangeLen, 1) <= arrivals[k].seqno {
      forall n ensures In(Plan(report.ranges, mergeDistance, maxRangeLen, maxRequests), n)
                       <==> 0 <= n < AtLeast(maxRequests, 1) * AtLeast(maxRangeLen, 1) {
        RunAsksLowest(cw, h, arrivals[..k + 1], origin, delay, minInterval, report, mergeDistance, maxRangeLen,
                      maxRequests, n);
      }
    }
  }

  lemma ZeroIsReported(cw: ChatWorld, h: ChatConflict.History, arrivals: seq<Arrival>, origin: NodeId,
                       delay: real, minInterval: real)
    returns (k: nat, report: GapText.Report)
    requires MeshGaps.SteadyHistory(cw, h) && MeshGaps.FedByRun(h, origin, arrivals) && FirstTime(arrivals)
    requires ClockMonotone(arrivals) && GapText.Strip(GapText.Label(origin)) != ""
    requires delay >= 0.0 && minInterval >= 0.0 && arrivals[0].now >= 0.0
    requires LastOf(arrivals).now - arrivals[0].now >= delay + minInterval
    ensures k < |arrivals| && ActsOn(arrivals[..k + 1], origin, delay, minInterval, report)
    ensures Covers(report.ranges, 0) && report.ranges != []
  {
    MeshGaps.ArrivalsArePositive(cw, h, origin, arrivals);
    ZeroMissingSince(arrivals);
    ReportedInTime(arrivals, origin, delay, minInterval, 0, 0);
    k := |arrivals| - 1;
    assert arrivals[..k + 1] == arrivals;
    if !ActedOn(arrivals, origin, delay, minInterval, 0) {
      k := Previous(arrivals, GapText.Label(origin), delay, minInterval);
    }
    var ranges :| Covers(ranges, 0) && Actionable(LinesAt(arrivals[..k + 1], GapText.Label(origin), delay, minInterval))
                                       == [GapText.Report(GapText.Strip(GapText.Label(origin)), ranges)];
    report := GapText.Report(GapText.Strip(GapText.Label(origin)), ranges);
  }
}
