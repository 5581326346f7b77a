/** From the ranges of a gap report to bounded range requests (mesh_backend.py:839-891). */
module GapRequests {
  import opened Basics
  import opened GapText

  /** n lies in some range of the list. */
  predicate In(rs: seq<Range>, n: int) {
    rs != [] && (rs[0].start <= n <= rs[0].end || In(rs[1..], n))
  }

  predicate Proper(rs: seq<Range>) {
    rs != [] ==> rs[0].start <= rs[0].end && Proper(rs[1..])
  }

  /** Every start in the list is at least lo. */
  predicate From(rs: seq<Range>, lo: int) {
    rs != [] ==> lo <= rs[0].start && From(rs[1..], lo)
  }

  predicate SortedByStart(rs: seq<Range>) {
    rs != [] ==> From(rs[1..], rs[0].start) && SortedByStart(rs[1..])
  }

  /** Proper ranges, in order, with more than d numbers between neighbours. */
  predicate Spaced(rs: seq<Range>, d: int) {
    rs != [] ==> rs[0].start <= rs[0].end && From(rs[1..], rs[0].end + d + 2) && Spaced(rs[1..], d)
  }

  // ----------------------------------------------------- specification

  function InsertSorted(r: Range, rs: seq<Range>): (out: seq<Range>) {
    if rs == [] then [r] else if r.start < rs[0].start then [r] + rs else [rs[0]] + InsertSorted(r, rs[1..])
  }

  /** `parsed.sort(key=start)`, a stable sort. */
  function Sort(rs: seq<Range>): (out: seq<Range>) {
    if rs == [] then [] else InsertSorted(rs[|rs| - 1], Sort(rs[..|rs| - 1]))
  }

  function CoalesceFrom(cur: Range, rest: seq<Range>, d: nat): (out: seq<Range>)
    decreases |rest|
  {
    if rest == [] then [cur]
    else if rest[0].start <= cur.end + 1 + d
    then CoalesceFrom(if rest[0].end > cur.end then cur.(end := rest[0].end) else cur, rest[1..], d)
    else [cur] + CoalesceFrom(rest[0], rest[1..], d)
  }

  function Chunk(s: int, e: int, len: int): (out: seq<Range>)
    requires len >= 1
    decreases e - s
  {
    if s > e then [] else
    var end := if s + len - 1 > e then e else s + len - 1;
    [Range(s, end)] + Chunk(end + 1, e, len)
  }

  function ChunkAll(rs: seq<Range>, len: int): (out: seq<Range>)
    requires len >= 1
  {
    if rs == [] then [] else Chunk(rs[0].start, rs[0].end, len) + ChunkAll(rs[1..], len)
  }

  /** All the chunks of the coalesced ranges, before truncation. */
  function FullPlan(parsed: seq<Range>, d: nat, len: int): (out: seq<Range>)
    requires parsed != [] && len >= 1
  {
    SortKeeps(parsed, 0);
    var sorted := Sort(parsed);
    ChunkAll(CoalesceFrom(sorted[0], sorted[1..], d), len)
  }

  // -------------------------------------------------------- membership

  lemma {:induction false} InConcat(a: seq<Range>, b: seq<Range>, n: int)
    ensures In(a + b, n) <==> In(a, n) || In(b, n)
  {
    if a == [] {
      assert a + b == b;
    } else {
      InConcat(a[1..], b, n);
      assert (a + b)[1..] == a[1..] + b;
    }
  }

  lemma {:induction false} FromMember(rs: seq<Range>, lo: int, n: int)
    requires From(rs, lo) && In(rs, n)
    ensures lo <= n
  {
    if !(rs[0].start <= n <= rs[0].end) {
      FromMember(rs[1..], lo, n);
    }
  }

  lemma {:induction false} FromLower(rs: seq<Range>, lo: int, lower: int)
    requires From(rs, lo) && lower <= lo
    ensures From(rs, lower)
  {
    if rs != [] {
      FromLower(rs[1..], lo, lower);
    }
  }

  // -------------------------------------------------------------- sort

  lemma {:induction false} InsertSortedKeeps(r: Range, rs: seq<Range>, lo: int, n: int)
    requires SortedByStart(rs) && Proper(rs) && r.start <= r.end && From(rs, lo) && lo <= r.start
    ensures var out := InsertSorted(r, rs);
            && SortedByStart(out) && Proper(out) && From(out, lo) && |out| == |rs| + 1
            && (In(out, n) <==> r.start <= n <= r.end || In(rs, n))
  {
    if rs == [] {
    } else if r.start < rs[0].start {
      assert ([r] + rs)[1..] == rs;
      FromLower(rs[1..], rs[0].start, r.start);
    } else {
      InsertSortedKeeps(r, rs[1..], rs[0].start, n);
      InsertSortedKeeps(r, rs[1..], lo, n);
      assert InsertSorted(r, rs)[1..] == InsertSorted(r, rs[1..]);
    }
  }

  lemma {:induction false} ProperSplit(rs: seq<Range>)
    requires rs != [] && Proper(rs)
    ensures Proper(rs[..|rs| - 1]) && rs[|rs| - 1].start <= rs[|rs| - 1].end
  {
    if |rs| > 1 {
      ProperSplit(rs[1..]);
      assert rs[1..][..|rs| - 2] == rs[..|rs| - 1][1..];
    }
  }

  lemma {:induction false} SomeLowerBound(rs: seq<Range>) returns (lo: int)
    ensures From(rs, lo)
  {
    if rs == [] {
      lo := 0;
    } else {
      lo := SomeLowerBound(rs[1..]);
      if rs[0].start < lo {
        FromLower(rs[1..], lo, rs[0].start);
        lo := rs[0].start;
      }
    }
  }

  lemma {:induction false} SortKeeps(rs: seq<Range>, n: int)
    ensures |Sort(rs)| == |rs|
    ensures Proper(rs) ==> SortedByStart(Sort(rs)) && Proper(Sort(rs)) && (In(Sort(rs), n) <==> In(rs, n))
  {
    if rs != [] {
      var front, last := rs[..|rs| - 1], rs[|rs| - 1];
      SortKeeps(front, n);
      InsertLength(last, Sort(front));
      if Proper(rs) {
        ProperSplit(rs);
        var lo := SomeLowerBound(Sort(front));
        var low := if last.start < lo then last.start else lo;
        FromLower(Sort(front), lo, low);
        InsertSortedKeeps(last, Sort(front), low, n);
        InConcat(front, [last], n);
        assert rs == front + [last];
      }
    }
  }

  lemma {:induction false} InsertLength(r: Range, rs: seq<Range>)
    ensures |InsertSorted(r, rs)| == |rs| + 1
  {
    if rs != [] {
      InsertLength(r, rs[1..]);
    }
  }

  // ---------------------------------------------------------- coalesce

  /** n lies between two listed numbers with at most d others between them (or is itself listed). */
  ghost predicate Bridged(rs: seq<Range>, n: int, d: nat) {
    exists a, b :: In(rs, a) && In(rs, b) && a <= n <= b && b - a - 1 <= d
  }

  lemma {:induction false} CoalesceShape(cur: Range, rest: seq<Range>, d: nat, n: int)
    requires cur.start <= cur.end && Proper(rest) && From(rest, cur.start) && SortedByStart(rest)
    ensures var out := CoalesceFrom(cur, rest, d);
            && Spaced(out, d) && From(out, cur.start) && out != []
            && (cur.start <= n <= cur.end || In(rest, n) ==> In(out, n))
    decreases |rest|
  {
    if rest == [] {
      assert [cur][1..] == [];
    } else if rest[0].start <= cur.end + 1 + d {
      CoalesceShape(if rest[0].end > cur.end then cur.(end := rest[0].end) else cur, rest[1..], d, n);
    } else {
      CoalesceShape(rest[0], rest[1..], d, n);
      var tail := CoalesceFrom(rest[0], rest[1..], d);
      FromLower(tail, rest[0].start, cur.end + d + 2);
      FromLower(tail, rest[0].start, cur.start);
      assert ([cur] + tail)[1..] == tail;
    }
  }

  lemma {:induction false} CoalesceOnlyBridges(all: seq<Range>, cur: Range, rest: seq<Range>, d: nat, n: int)
    requires cur.start <= cur.end && Proper(rest)
    requires In(all, cur.end) && forall k | In(rest, k) :: In(all, k)
    requires cur.start <= n <= cur.end ==> Bridged(all, n, d)
    requires In(CoalesceFrom(cur, rest, d), n)
    ensures Bridged(all, n, d)
    decreases |rest|
  {
    if rest != [] {
      var r := rest[0];
      assert In(rest, r.start) && In(rest, r.end);
      if r.start <= n <= r.end {
        assert In(rest, n) && n - n - 1 <= d;
      }
      if r.start <= cur.end + 1 + d {
        if cur.end < n < r.start {
          assert r.start - cur.end - 1 <= d;
        }
        CoalesceOnlyBridges(all, if r.end > cur.end then cur.(end := r.end) else cur, rest[1..], d, n);
      } else {
        var tail := CoalesceFrom(r, rest[1..], d);
        assert ([cur] + tail)[1..] == tail;
        if !(cur.start <= n <= cur.end) {
          CoalesceOnlyBridges(all, r, rest[1..], d, n);
        }
      }
    }
  }

  /** In a spaced list, two members at most d apart are in the same range, and so is all between them. */
  lemma {:induction false} SpacedCovers(rs: seq<Range>, d: nat, a: int, n: int, b: int)
    requires Spaced(rs, d) && In(rs, a) && In(rs, b) && a <= n <= b && b - a - 1 <= d
    ensures In(rs, n)
  {
    var r := rs[0];
    if r.start <= a <= r.end {
      if b > r.end {
        FromMember(rs[1..], r.end + d + 2, b);
      }
    } else {
      FromMember(rs[1..], r.end + d + 2, a);
      SpacedCovers(rs[1..], d, a, n, b);
    }
  }

  // ------------------------------------------------------------- chunk

  /** Proper ranges no longer than len, each starting after the previous one ends. */
  predicate Ascending(rs: seq<Range>, len: int) {
    rs != [] ==>
      && rs[0].start <= rs[0].end < rs[0].start + len
      && From(rs[1..], rs[0].end + 1)
      && Ascending(rs[1..], len)
  }

  /** Every end in the list is below hi. */
  predicate Below(rs: seq<Range>, hi: int) {
    rs != [] ==> rs[0].end < hi && Below(rs[1..], hi)
  }

  lemma {:induction false} ChunkPartitions(s: int, e: int, len: int, n: int)
    requires len >= 1
    ensures var out := Chunk(s, e, len);
            Ascending(out, len) && From(out, s) && Below(out, e + 1) && (In(out, n) <==> s <= n <= e)
    decreases e - s
  {
    if s <= e {
      var end := if s + len - 1 > e then e else s + len - 1;
      ChunkPartitions(end + 1, e, len, n);
      FromLower(Chunk(end + 1, e, len), end + 1, s);
      assert Chunk(s, e, len)[1..] == Chunk(end + 1, e, len);
    }
  }

  lemma {:induction false} AscendingConcat(a: seq<Range>, b: seq<Range>, len: int, lo: int, mid: int)
    requires Ascending(a, len) && Ascending(b, len) && From(a, lo) && Below(a, mid) && From(b, mid) && lo <= mid
    ensures Ascending(a + b, len) && From(a + b, lo)
  {
    if a == [] {
      assert a + b == b;
      FromLower(b, mid, lo);
    } else {
      AscendingConcat(a[1..], b, len, a[0].end + 1, mid);
      assert (a + b)[1..] == a[1..] + b;
      FromLower(a[1..] + b, a[0].end + 1, lo);
    }
  }

  lemma {:induction false} ChunkAllPartitions(rs: seq<Range>, d: nat, len: int, lo: int, n: int)
    requires len >= 1 && Spaced(rs, d) && From(rs, lo)
    ensures var out := ChunkAll(rs, len);
            Ascending(out, len) && From(out, lo) && (In(out, n) <==> In(rs, n))
  {
    if rs != [] {
      var r := rs[0];
      FromLower(rs[1..], r.end + d + 2, r.end + 1);
      ChunkAllPartitions(rs[1..], d, len, r.end + 1, n);
      ChunkPartitions(r.start, r.end, len, n);
      FromLower(Chunk(r.start, r.end, len), r.start, lo);
      AscendingConcat(Chunk(r.start, r.end, len), ChunkAll(rs[1..], len), len, lo, r.end + 1);
      InConcat(Chunk(r.start, r.end, len), ChunkAll(rs[1..], len), n);
    }
  }

  // ---------------------------------------------------------- the plan

  lemma FullPlanIsBridge(parsed: seq<Range>, d: nat, len: int, n: int)
    requires parsed != [] && Proper(parsed) && len >= 1
    ensures Ascending(FullPlan(parsed, d, len), len)
    ensures In(FullPlan(parsed, d, len), n) <==> Bridged(parsed, n, d)
  {
    forall k ensures In(Sort(parsed), k) <==> In(parsed, k) {
      SortKeeps(parsed, k);
    }
    SortKeeps(parsed, n);
    var sorted := Sort(parsed);
    var merged := CoalesceFrom(sorted[0], sorted[1..], d);
    CoalesceShape(sorted[0], sorted[1..], d, n);
    ChunkAllPartitions(merged, d, len, sorted[0].start, n);
    if In(merged, n) {
      if sorted[0].start <= n <= sorted[0].end {
        assert In(parsed, n) && n - n - 1 <= d;
      }
      CoalesceOnlyBridges(parsed, sorted[0], sorted[1..], d, n);
    }
    if Bridged(parsed, n, d) {
      var a, b :| In(parsed, a) && In(parsed, b) && a <= n <= b && b - a - 1 <= d;
      CoalesceShape(sorted[0], sorted[1..], d, a);
      CoalesceShape(sorted[0], sorted[1..], d, b);
      SpacedCovers(merged, d, a, n, b);
    }
  }

  lemma {:induction false} AscendingPrefix(rs: seq<Range>, len: int, k: nat, n: int, m: int)
    requires Ascending(rs, len) && k <= |rs| && In(rs[..k], n) && In(rs[k..], m)
    ensures n < m
  {
    assert k > 0;
    assert rs[..k][1..] == rs[1..][..k - 1] && rs[k..] == rs[1..][k - 1..];
    if rs[0].start <= n <= rs[0].end {
      InConcat(rs[1..][..k - 1], rs[k..], m);
      assert rs[1..] == rs[1..][..k - 1] + rs[k..];
      FromMember(rs[1..], rs[0].end + 1, m);
    } else {
      AscendingPrefix(rs[1..], len, k - 1, n, m);
    }
  }

  function AtLeast(x: int, lo: int): (r: int)
    ensures r >= x && r >= lo && (r == x || r == lo)
  {
    if x < lo then lo else x
  }

  /** The requests sent for a report: the configured bounds are clamped as the handler clamps them. */
  function Plan(parsed: seq<Range>, mergeDistance: int, maxRangeLen: int, maxRequests: int): (out: seq<Range>)
    requires parsed != []
  {
    var full := FullPlan(parsed, AtLeast(mergeDistance, 0), AtLeast(maxRangeLen, 1));
    var k := AtLeast(maxRequests, 1);
    if |full| <= k then full else full[..k]
  }

  /** The request plan, for every list of ranges in any order, overlapping or not: the chunks ascend, none is
      longer than the bound, together they cover exactly the reported numbers and those in holes no longer than
      the merge distance, and what is sent is a prefix of them, cut only at max_requests, so everything sent
      lies below everything left out. */
  lemma PlanIsLowestPrefix(parsed: seq<Range>, mergeDistance: int, maxRangeLen: int, maxRequests: int)
    requires parsed != [] && Proper(parsed)
    ensures var d, len, k := AtLeast(mergeDistance, 0), AtLeast(maxRangeLen, 1), AtLeast(maxRequests, 1);
            var full, sent := FullPlan(parsed, d, len), Plan(parsed, mergeDistance, maxRangeLen, maxRequests);
            && Ascending(full, len)
            && (forall n :: In(full, n) <==> Bridged(parsed, n, d))
            && |sent| <= k && sent <= full && (sent != full ==> |sent| == k)
            && (forall n, m | In(sent, n) && In(full[|sent|..], m) :: n < m)
  {
    var d, len := AtLeast(mergeDistance, 0), AtLeast(maxRangeLen, 1);
    var full, sent := FullPlan(parsed, d, len), Plan(parsed, mergeDistance, maxRangeLen, maxRequests);
    FullPlanIsBridge(parsed, d, len, 0);
    forall n ensures In(full, n) <==> Bridged(parsed, n, d) {
      FullPlanIsBridge(parsed, d, len, n);
    }
    forall n, m | In(sent, n) && In(full[|sent|..], m) ensures n < m {
      assert sent == full[..|sent|];
      AscendingPrefix(full, len, |sent|, n, m);
    }
  }

  /** With the default merge distance 0 the chunks cover exactly the reported numbers. */
  lemma NoMergingIsExact(parsed: seq<Range>, len: int, n: int)
    requires parsed != [] && Proper(parsed) && len >= 1
    ensures In(FullPlan(parsed, 0, len), n) <==> In(parsed, n)
  {
    FullPlanIsBridge(parsed, 0, len, n);
    if In(parsed, n) {
      assert n - n - 1 <= 0;
    }
  }

  // --------------------------------------------------------- the loops

  method Coalesce(sorted: seq<Range>, mergeDistance: nat) returns (merged: seq<Range>)
    requires sorted != []
    ensures merged == CoalesceFrom(sorted[0], sorted[1..], mergeDistance)
  {
    merged := [];
    var cur, rest := sorted[0], sorted[1..];
    while rest != []
      invariant merged + CoalesceFrom(cur, rest, mergeDistance) == CoalesceFrom(sorted[0], sorted[1..], mergeDistance)
      decreases |rest|
    {
      var r := rest[0];
      rest := rest[1..];
      if r.start <= cur.end + 1 + mergeDistance {
        if r.end > cur.end {
          cur := cur.(end := r.end);
        }
      } else {
        Assoc(merged, [cur], CoalesceFrom(r, rest, mergeDistance));
        merged := merged + [cur];
        cur := r;
      }
    }
    merged := merged + [cur];
  }

  lemma ChunkStep(chunks: seq<Range>, cur: int, end: int, e: int, len: int)
    requires len >= 1 && cur <= e && end == (if cur + len - 1 > e then e else cur + len - 1)
    ensures chunks + Chunk(cur, e, len) == (chunks + [Range(cur, end)]) + Chunk(end + 1, e, len)
  {
    Assoc(chunks, [Range(cur, end)], Chunk(end + 1, e, len));
  }

  method ChunkOne(r: Range, maxRangeLen: int) returns (chunks: seq<Range>)
    requires maxRangeLen >= 1 && r.start <= r.end
    ensures chunks == Chunk(r.start, r.end, maxRangeLen)
  {
    if r.end - r.start + 1 <= maxRangeLen {
      return [r];
    }
    chunks := [];
    var cur := r.start;
    while cur <= r.end
      invariant r.start <= cur <= r.end + 1
      invariant chunks + Chunk(cur, r.end, maxRangeLen) == Chunk(r.start, r.end, maxRangeLen)
    {
      var end := cur + maxRangeLen - 1;
      if end > r.end {
        end := r.end;
      }
      ChunkStep(chunks, cur, end, r.end, maxRangeLen);
      chunks := chunks + [Range(cur, end)];
      cur := end + 1;
    }
  }

  method ChunkRanges(merged: seq<Range>, maxRangeLen: int) returns (chunks: seq<Range>)
    requires maxRangeLen >= 1 && Proper(merged)
    ensures chunks == ChunkAll(merged, maxRangeLen)
  {
    chunks := [];
    var rest := merged;
    while rest != []
      invariant Proper(rest) && chunks + ChunkAll(rest, maxRangeLen) == ChunkAll(merged, maxRangeLen)
      decreases |rest|
    {
      var part := ChunkOne(rest[0], maxRangeLen);
      Assoc(chunks, part, ChunkAll(rest[1..], maxRangeLen));
      chunks := chunks + part;
      rest := rest[1..];
    }
  }

  lemma {:induction false} SpacedIsProper(rs: seq<Range>, d: nat)
    requires Spaced(rs, d)
    ensures Proper(rs)
  {
    if rs != [] {
      SpacedIsProper(rs[1..], d);
    }
  }

  method PlanRequests(parsed: seq<Range>, mergeDistance: int, maxRangeLen: int, maxRequests: int)
    returns (sent: seq<Range>)
    requires parsed != [] && Proper(parsed)
    ensures sent == Plan(parsed, mergeDistance, maxRangeLen, maxRequests)
  {
    var d, len, k := mergeDistance, maxRangeLen, maxRequests;
    if d < 0 {
      d := 0;
    }
    if len < 1 {
      len := 1;
    }
    if k < 1 {
      k := 1;
    }
    var sorted := Sort(parsed);
    SortKeeps(parsed, 0);
    CoalesceShape(sorted[0], sorted[1..], d, 0);
    var merged := Coalesce(sorted, d);
    SpacedIsProper(merged, d);
    var chunks := ChunkRanges(merged, len);
    sent := if |chunks| <= k then chunks else chunks[..k];
  }
}
