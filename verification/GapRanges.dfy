/** The interval list of `_GapTracker` (chat_client.py:261-314): missing sequence numbers as inclusive
    ranges, each with the time its gap was detected. */
module GapRanges {
  import opened Basics

  datatype Gap = Gap(start: int, end: int, ts: real) {
    predicate Contains(n: int) { start <= n <= end }
  }

  /** n lies in some range of the list. */
  predicate Has(ranges: seq<Gap>, n: int) {
    ranges != [] && (ranges[0].Contains(n) || Has(ranges[1..], n))
  }

  /** n lies in a range stamped no later than t. */
  predicate Stamped(ranges: seq<Gap>, n: int, t: real) {
    ranges != [] && ((ranges[0].Contains(n) && ranges[0].ts <= t) || Stamped(ranges[1..], n, t))
  }

  predicate Above(ranges: seq<Gap>, n: int) {
    ranges != [] ==> n < ranges[0].start
  }

  /** Sorted, disjoint, non-adjacent, non-empty ranges. */
  predicate Normal(ranges: seq<Gap>) {
    ranges != [] ==>
      && ranges[0].start <= ranges[0].end
      && Above(ranges[1..], ranges[0].end + 1)
      && Normal(ranges[1..])
  }

  function Min(a: int, b: int): int { if a <= b then a else b }
  function Max(a: int, b: int): int { if a >= b then a else b }
  function MinR(a: real, b: real): real { if a <= b then a else b }

  // ----------------------------------------------------- specification

  function Insert(ranges: seq<Gap>, s: int, e: int, ts: real): (r: seq<Gap>) {
    if ranges == [] then [Gap(s, e, ts)] else
    var g := ranges[0];
    if g.end + 1 < s then [g] + Insert(ranges[1..], s, e, ts)
    else if e + 1 < g.start then [Gap(s, e, ts)] + ranges
    else Insert(ranges[1..], Min(s, g.start), Max(e, g.end), MinR(ts, g.ts))
  }

  function Without(g: Gap, x: int): (r: seq<Gap>) {
    if !g.Contains(x) then [g] else
    (if g.start <= x - 1 then [g.(end := x - 1)] else []) + (if x + 1 <= g.end then [g.(start := x + 1)] else [])
  }

  function Remove(ranges: seq<Gap>, x: int): (r: seq<Gap>) {
    if ranges == [] then [] else Without(ranges[0], x) + Remove(ranges[1..], x)
  }

  function TrimGap(g: Gap, hi: int): (r: seq<Gap>) {
    if g.end <= hi then [] else if g.start <= hi then [g.(start := hi + 1)] else [g]
  }

  function Trim(ranges: seq<Gap>, hi: int): (r: seq<Gap>) {
    if ranges == [] then [] else TrimGap(ranges[0], hi) + Trim(ranges[1..], hi)
  }

  // --------------------------------------------------- list-level facts

  lemma {:induction false} HasConcat(a: seq<Gap>, b: seq<Gap>, n: int, t: real)
    ensures Has(a + b, n) <==> Has(a, n) || Has(b, n)
    ensures Stamped(a + b, n, t) <==> Stamped(a, n, t) || Stamped(b, n, t)
  {
    if a == [] {
      assert a + b == b;
    } else {
      HasConcat(a[1..], b, n, t);
      assert (a + b)[1..] == a[1..] + b;
    }
  }

  lemma {:induction false} AboveAll(ranges: seq<Gap>, lo: int, n: int)
    requires Normal(ranges) && Above(ranges, lo)
    ensures Has(ranges, n) ==> n > lo
  {
    if ranges != [] {
      AboveAll(ranges[1..], lo, n);
    }
  }

  lemma NormalCons(g: Gap, rest: seq<Gap>)
    requires g.start <= g.end && Above(rest, g.end + 1) && Normal(rest)
    ensures Normal([g] + rest)
    ensures forall n :: Has([g] + rest, n) <==> g.Contains(n) || Has(rest, n)
    ensures forall n, t :: Stamped([g] + rest, n, t) <==> (g.Contains(n) && g.ts <= t) || Stamped(rest, n, t)
  {
    assert ([g] + rest)[1..] == rest;
  }

  /** In a normal list the range holding n is unique, so its stamp is the stamp of n. */
  lemma {:induction false} StampIsUnique(ranges: seq<Gap>, i: nat, n: int, t: real)
    requires Normal(ranges) && i < |ranges| && ranges[i].Contains(n) && Stamped(ranges, n, t)
    ensures ranges[i].ts <= t
  {
    if i == 0 {
      AboveAll(ranges[1..], ranges[0].end + 1, n);
      StampedHas(ranges[1..], n, t);
    } else {
      InTail(ranges[1..], i - 1, n);
      AboveAll(ranges[1..], ranges[0].end + 1, n);
      StampIsUnique(ranges[1..], i - 1, n, t);
    }
  }

  lemma {:induction false} InTail(ranges: seq<Gap>, i: nat, n: int)
    requires i < |ranges| && ranges[i].Contains(n)
    ensures Has(ranges, n)
  {
    if i > 0 {
      InTail(ranges[1..], i - 1, n);
    }
  }

  lemma {:induction false} StampedHas(ranges: seq<Gap>, n: int, t: real)
    ensures Stamped(ranges, n, t) ==> Has(ranges, n)
  {
    if ranges != [] {
      StampedHas(ranges[1..], n, t);
    }
  }

  // ------------------------------------------- set union, set deletion

  /** Inserting a range is set union; it keeps the list normal, never makes a member's stamp later, and
      stamps every inserted number no later than the insertion. */
  lemma {:induction false} InsertIsUnion(ranges: seq<Gap>, s: int, e: int, ts: real, lo: int)
    requires Normal(ranges) && s <= e && lo < s && Above(ranges, lo)
    ensures var r := Insert(ranges, s, e, ts);
            && Normal(r) && Above(r, lo) && r != []
            && (forall n :: Has(r, n) <==> Has(ranges, n) || s <= n <= e)
            && (forall n, t :: Stamped(ranges, n, t) || (s <= n <= e && ts <= t) ==> Stamped(r, n, t))
  {
    if ranges == [] {
      NormalCons(Gap(s, e, ts), []);
      assert [Gap(s, e, ts)] + [] == [Gap(s, e, ts)];
    } else {
      var g := ranges[0];
      if g.end + 1 < s {
        InsertIsUnion(ranges[1..], s, e, ts, g.end + 1);
        NormalCons(g, Insert(ranges[1..], s, e, ts));
      } else if e + 1 < g.start {
        NormalCons(Gap(s, e, ts), ranges);
      } else {
        InsertIsUnion(ranges[1..], Min(s, g.start), Max(e, g.end), MinR(ts, g.ts), lo);
      }
    }
  }

  /** What a range of the result is: an old one, or the one that swallowed the insertion. That one is stamped with the
      earliest of the insertion and the old ranges inside it. */
  ghost predicate OldOrMerged(ranges: seq<Gap>, s: int, e: int, ts: real, g: Gap) {
    || g in ranges
    || (&& g.start <= s && e <= g.end && g.ts <= ts
        && (forall r | r in ranges && g.start <= r.start && r.end <= g.end :: g.ts <= r.ts)
        && (g.ts == ts || exists r :: r in ranges && g.start <= r.start && r.end <= g.end && r.ts == g.ts))
  }

  lemma {:induction false} InsertMerges(ranges: seq<Gap>, s: int, e: int, ts: real, lo: int, g: Gap)
    requires Normal(ranges) && s <= e && lo < s && Above(ranges, lo) && g in Insert(ranges, s, e, ts)
    ensures OldOrMerged(ranges, s, e, ts, g)
  {
    if ranges != [] {
      var h, rest := ranges[0], ranges[1..];
      assert ranges == [h] + rest;
      if h.end + 1 < s {
        if g != h {
          InsertMerges(rest, s, e, ts, h.end + 1, g);
          InsertIsUnion(rest, s, e, ts, h.end + 1);
          StartsAbove(Insert(rest, s, e, ts), h.end + 1, g);
        }
      } else if e + 1 < h.start {
        forall r | r in ranges ensures r.end > e {
          StartsAbove(ranges, e + 1, r);
        }
      } else {
        InsertMerges(rest, Min(s, h.start), Max(e, h.end), MinR(ts, h.ts), lo, g);
      }
    }
  }

  lemma {:induction false} StartsAbove(ranges: seq<Gap>, lo: int, g: Gap)
    requires Normal(ranges) && Above(ranges, lo) && g in ranges
    ensures lo < g.start <= g.end
  {
    if g != ranges[0] {
      StartsAbove(ranges[1..], ranges[0].end + 1, g);
    }
  }

  /** Removing a number is set deletion; it keeps the list normal and every other member's stamp. */
  lemma {:induction false} RemoveIsDeletion(ranges: seq<Gap>, x: int, lo: int)
    requires Normal(ranges) && Above(ranges, lo)
    ensures var r := Remove(ranges, x);
            && Normal(r) && Above(r, lo)
            && (forall n :: Has(r, n) <==> Has(ranges, n) && n != x)
            && (forall n, t :: n != x && Stamped(ranges, n, t) ==> Stamped(r, n, t))
  {
    if ranges != [] {
      var g, rest := ranges[0], Remove(ranges[1..], x);
      RemoveIsDeletion(ranges[1..], x, g.end + 1);
      if !g.Contains(x) {
        NormalCons(g, rest);
      } else {
        AboveAll(ranges[1..], g.end + 1, x);
        var hiPart := if x + 1 <= g.end then [g.(start := x + 1)] + rest else rest;
        if x + 1 <= g.end {
          NormalCons(g.(start := x + 1), rest);
        }
        if g.start <= x - 1 {
          NormalCons(g.(end := x - 1), hiPart);
        }
        assert Remove(ranges, x) == if g.start <= x - 1 then [g.(end := x - 1)] + hiPart else hiPart;
      }
    }
  }

  /** Trimming keeps exactly the members above hi, with their stamps. */
  lemma {:induction false} TrimIsCut(ranges: seq<Gap>, hi: int)
    requires Normal(ranges)
    ensures var r := Trim(ranges, hi);
            && Normal(r) && Above(r, hi)
            && (ranges != [] ==> Above(r, ranges[0].start - 1))
            && (forall n :: Has(r, n) <==> Has(ranges, n) && n > hi)
            && (forall n, t :: n > hi && Stamped(ranges, n, t) ==> Stamped(r, n, t))
  {
    if ranges != [] {
      var g, rest := ranges[0], Trim(ranges[1..], hi);
      TrimIsCut(ranges[1..], hi);
      if g.end > hi {
        NormalCons(if g.start <= hi then g.(start := hi + 1) else g, rest);
        assert TrimGap(g, hi) + rest == [if g.start <= hi then g.(start := hi + 1) else g] + rest;
      } else {
        assert TrimGap(g, hi) + rest == rest;
      }
    }
  }

  /** And neither gives a number an earlier stamp than it had. */
  lemma {:induction false} NoEarlierStamps(ranges: seq<Gap>, x: int, n: int, t: real)
    ensures Stamped(Remove(ranges, x), n, t) ==> Stamped(ranges, n, t)
    ensures Stamped(Trim(ranges, x), n, t) ==> Stamped(ranges, n, t)
  {
    if ranges != [] {
      NoEarlierStamps(ranges[1..], x, n, t);
      HasConcat(Without(ranges[0], x), Remove(ranges[1..], x), n, t);
      HasConcat(TrimGap(ranges[0], x), Trim(ranges[1..], x), n, t);
      PartStamped(ranges[0], x, n, t);
    }
  }

  lemma OneStamped(g: Gap, n: int, t: real)
    ensures Stamped([g], n, t) <==> g.Contains(n) && g.ts <= t
  {
    assert [g][1..] == [];
  }

  lemma PartStamped(g: Gap, x: int, n: int, t: real)
    ensures Stamped(Without(g, x), n, t) || Stamped(TrimGap(g, x), n, t) ==> g.Contains(n) && g.ts <= t
  {
    var lower, upper := g.(end := x - 1), g.(start := x + 1);
    OneStamped(g, n, t);
    OneStamped(lower, n, t);
    OneStamped(upper, n, t);
    HasConcat(if g.start <= x - 1 then [lower] else [], if x + 1 <= g.end then [upper] else [], n, t);
  }

  /** A list all of whose stamps come from a set of times. */
  predicate StampsFrom(ranges: seq<Gap>, times: set<real>) {
    ranges != [] ==> ranges[0].ts in times && StampsFrom(ranges[1..], times)
  }

  lemma {:induction false} StampsConcat(a: seq<Gap>, b: seq<Gap>, times: set<real>)
    ensures StampsFrom(a + b, times) <==> StampsFrom(a, times) && StampsFrom(b, times)
  {
    if a == [] {
      assert a + b == b;
    } else {
      StampsConcat(a[1..], b, times);
      assert (a + b)[1..] == a[1..] + b;
    }
  }

  /** None of the three operations invents a timestamp. */
  lemma {:induction false} NoNewStamps(ranges: seq<Gap>, s: int, e: int, ts: real, x: int, times: set<real>)
    requires StampsFrom(ranges, times)
    ensures ts in times ==> StampsFrom(Insert(ranges, s, e, ts), times)
    ensures StampsFrom(Remove(ranges, x), times) && StampsFrom(Trim(ranges, x), times)
  {
    if ranges != [] {
      var g := ranges[0];
      NoNewStamps(ranges[1..], s, e, ts, x, times);
      NoNewStamps(ranges[1..], Min(s, g.start), Max(e, g.end), MinR(ts, g.ts), x, times);
      StampsConcat(Without(g, x), Remove(ranges[1..], x), times);
      StampsConcat(TrimGap(g, x), Trim(ranges[1..], x), times);
      StampsConcat([g], Insert(ranges[1..], s, e, ts), times);
      StampsConcat([Gap(s, e, ts)], ranges, times);
    }
  }

  lemma {:induction false} StampsGrow(ranges: seq<Gap>, times: set<real>, more: set<real>)
    requires StampsFrom(ranges, times) && times <= more
    ensures StampsFrom(ranges, more)
  {
    if ranges != [] {
      StampsGrow(ranges[1..], times, more);
    }
  }

  lemma {:induction false} StampedByAll(ranges: seq<Gap>, times: set<real>, n: int, t: real)
    requires StampsFrom(ranges, times) && Has(ranges, n) && forall x | x in times :: x <= t
    ensures Stamped(ranges, n, t)
  {
    if !ranges[0].Contains(n) {
      StampedByAll(ranges[1..], times, n, t);
    }
  }

  // -------------------------------------------------------- the loops

  /** `_add_range`. The source finally sorts by start; the result is already sorted, so that changes nothing. */
  method AddRange(ranges: seq<Gap>, start: int, end: int, detectedTs: real) returns (out: seq<Gap>)
    requires Normal(ranges)
    ensures out == if start > end then ranges else Insert(ranges, start, end, detectedTs)
  {
    if start > end {
      return ranges;
    }
    out := [];
    var inserted := false;
    var s, e, ts0 := start, end, detectedTs;
    var rest := ranges;
    while rest != []
      invariant Normal(rest) && s <= e
      invariant inserted ==> Above(rest, e + 1)
      invariant out + (if inserted then rest else Insert(rest, s, e, ts0)) == Insert(ranges, start, end, detectedTs)
      decreases |rest|
    {
      var g := rest[0];
      ghost var before, was := out, rest;
      rest := rest[1..];
      assert was == [g] + rest;
      if g.end + 1 < s {
        out := out + [g];
        Assoc(before, [g], if inserted then rest else Insert(rest, s, e, ts0));
      } else if e + 1 < g.start {
        if !inserted {
          out := out + [Gap(s, e, ts0)];
          inserted := true;
          Assoc(before, [Gap(s, e, ts0)], was);
        }
        Assoc(out, [g], rest);
        out := out + [g];
      } else {
        s, e, ts0 := Min(s, g.start), Max(e, g.end), MinR(ts0, g.ts);
      }
    }
    if !inserted {
      out := out + [Gap(s, e, ts0)];
    }
  }

  /** `_remove_seq`. */
  method RemoveSeq(ranges: seq<Gap>, x: int) returns (out: seq<Gap>)
    ensures out == Remove(ranges, x)
  {
    out := [];
    var rest := ranges;
    while rest != []
      invariant out + Remove(rest, x) == Remove(ranges, x)
      decreases |rest|
    {
      var g := rest[0];
      ghost var before := out;
      rest := rest[1..];
      if x < g.start || x > g.end {
        out := out + [g];
      } else {
        if g.start <= x - 1 {
          out := out + [Gap(g.start, x - 1, g.ts)];
        }
        if x + 1 <= g.end {
          out := out + [Gap(x + 1, g.end, g.ts)];
        }
      }
      assert out == before + Without(g, x);
      Assoc(before, Without(g, x), Remove(rest, x));
    }
  }

  /** The trimming loop of `on_seqno`. */
  method TrimBelow(ranges: seq<Gap>, hi: int) returns (out: seq<Gap>)
    ensures out == Trim(ranges, hi)
  {
    out := [];
    var rest := ranges;
    while rest != []
      invariant out + Trim(rest, hi) == Trim(ranges, hi)
      decreases |rest|
    {
      var g := rest[0];
      ghost var before := out;
      rest := rest[1..];
      if g.end > hi {
        out := out + [Gap(if g.start <= hi then hi + 1 else g.start, g.end, g.ts)];
      }
      assert out == before + TrimGap(g, hi);
      Assoc(before, TrimGap(g, hi), Trim(rest, hi));
    }
  }
}
