/** The chat log (chat_store.py): a keyed table with an auto-increment id, deduplicating by (origin, seqno). */
module ChatStore {
  import opened Basics
  import opened Bytes

  datatype Key = Key(origin: Bytes, seqno: int)

  /** What a message says, apart from its key and local bookkeeping. */
  datatype Content = Content(channel: Bytes, nick: Bytes, text: Bytes, createdTs: int)

  datatype Row = Row(id: nat, key: Key, content: Content, ts: real)

  /** `rows` in id order. */
  datatype Table = Table(rows: seq<Row>, nextId: nat)

  const EMPTY_TABLE := Table([], 1)

  predicate IdsAscend(rows: seq<Row>) {
    forall i, j | 0 <= i < j < |rows| :: rows[i].id < rows[j].id
  }

  predicate KeysDistinct(rows: seq<Row>) {
    forall i, j | 0 <= i < j < |rows| :: rows[i].key != rows[j].key
  }

  predicate TableOk(t: Table) {
    IdsAscend(t.rows) && KeysDistinct(t.rows) && forall r | r in t.rows :: r.id < t.nextId
  }

  predicate HasKey(rows: seq<Row>, k: Key) {
    exists i :: 0 <= i < |rows| && rows[i].key == k
  }

  /** INSERT OR IGNORE. */
  function Add(t: Table, k: Key, c: Content, ts: real): (t': Table)
    requires TableOk(t)
    ensures TableOk(t') && HasKey(t'.rows, k)
    ensures forall q :: HasKey(t.rows, q) ==> HasKey(t'.rows, q)
  {
    if HasKey(t.rows, k) then t else
    var t' := Table(t.rows + [Row(t.nextId, k, c, ts)], t.nextId + 1);
    assert t'.rows[|t.rows|].key == k;
    assert forall i | 0 <= i < |t.rows| :: t'.rows[i] == t.rows[i];
    t'
  }

  // ---------------------------------------------------------- selection

  function InChannel(rows: seq<Row>, c: Bytes): (r: seq<Row>)
    ensures forall x :: x in r <==> x in rows && x.content.channel == c
    ensures |r| <= |rows|
  {
    if rows == [] then [] else
    (if rows[0].content.channel == c then [rows[0]] else []) + InChannel(rows[1..], c)
  }

  /** The two orders queries sort by. */
  datatype Order = ByTime | BySeqno

  predicate Before(o: Order, a: Row, b: Row) {
    var x := if o.ByTime? then a.content.createdTs else a.key.seqno;
    var y := if o.ByTime? then b.content.createdTs else b.key.seqno;
    x < y || (x == y && a.id < b.id)
  }

  predicate Sorted(o: Order, rows: seq<Row>) {
    forall i, j | 0 <= i < j < |rows| :: Before(o, rows[i], rows[j])
  }

  function Place(o: Order, r: Row, rows: seq<Row>): (out: seq<Row>)
    ensures multiset(out) == multiset(rows) + multiset{r}
    ensures |out| == |rows| + 1
  {
    if rows == [] then [r]
    else if Before(o, r, rows[0]) then [r] + rows
    else
      assert rows == [rows[0]] + rows[1..];
      [rows[0]] + Place(o, r, rows[1..])
  }

  function SortBy(o: Order, rows: seq<Row>): (out: seq<Row>)
    ensures multiset(out) == multiset(rows) && |out| == |rows|
  {
    if rows == [] then [] else
    assert rows == [rows[0]] + rows[1..];
    Place(o, rows[0], SortBy(o, rows[1..]))
  }

  predicate IdsDistinct(rows: seq<Row>) {
    forall i, j | 0 <= i < j < |rows| :: rows[i].id != rows[j].id
  }

  lemma SameMembers(a: seq<Row>, b: seq<Row>)
    requires multiset(a) == multiset(b)
    ensures forall x :: x in a <==> x in b
  {
    forall x ensures x in a <==> x in b {
      assert x in a <==> x in multiset(a);
      assert x in b <==> x in multiset(b);
    }
  }

  lemma {:induction false} PlaceSorted(o: Order, r: Row, rows: seq<Row>)
    requires Sorted(o, rows) && forall x | x in rows :: x.id != r.id
    ensures Sorted(o, Place(o, r, rows))
  {
    if rows != [] && !Before(o, r, rows[0]) {
      PlaceSorted(o, r, rows[1..]);
      var rest := Place(o, r, rows[1..]);
      forall x | x in rest ensures Before(o, rows[0], x) {
        assert x in multiset(rest);
        assert x == r || x in rows[1..];
      }
    }
  }

  lemma {:induction false} SortBySorts(o: Order, rows: seq<Row>)
    requires IdsDistinct(rows)
    ensures Sorted(o, SortBy(o, rows))
  {
    if rows != [] {
      SortBySorts(o, rows[1..]);
      SameMembers(SortBy(o, rows[1..]), rows[1..]);
      PlaceSorted(o, rows[0], SortBy(o, rows[1..]));
    }
  }

  /** A strictly sorted sequence is determined by its elements. */
  lemma {:induction false} SortedUnique(o: Order, a: seq<Row>, b: seq<Row>)
    requires Sorted(o, a) && Sorted(o, b) && forall x :: x in a <==> x in b
    ensures a == b
  {
    if a == [] {
      forall x ensures x !in multiset(b) {
        assert x in a <==> x in b;
      }
      assert multiset(b) == multiset{};
      assert |b| == |multiset(b)|;
    } else {
      assert a[0] in b && b != [] && b[0] in a;
      forall x ensures x in a[1..] <==> x in b[1..] {
        assert x in a <==> x == a[0] || x in a[1..];
        assert x in b <==> x == b[0] || x in b[1..];
      }
      SortedUnique(o, a[1..], b[1..]);
      assert a == [a[0]] + a[1..] && b == [b[0]] + b[1..];
    }
  }

  function Suffix(rows: seq<Row>, n: int): (r: seq<Row>) {
    if n <= 0 then [] else if |rows| <= n then rows else rows[|rows| - n..]
  }

  function Prefix(rows: seq<Row>, n: int): (r: seq<Row>) {
    if n <= 0 then [] else if |rows| <= n then rows else rows[..n]
  }

  /** The channel's rows, oldest first. */
  function Timeline(rows: seq<Row>, c: Bytes): (r: seq<Row>) {
    SortBy(ByTime, InChannel(rows, c))
  }

  /** `get_last_n_messages`: ORDER BY created_ts DESC, id DESC LIMIT n, then put back in ascending order. */
  function LastN(rows: seq<Row>, c: Bytes, n: int): (r: seq<Row>) {
    Suffix(Timeline(rows, c), n)
  }

  function OriginRange(rows: seq<Row>, c: Bytes, origin: Bytes, s: int, e: int): (r: seq<Row>)
    ensures forall x :: x in r <==>
                          x in rows && x.content.channel == c && x.key.origin == origin && s <= x.key.seqno <= e
  {
    if rows == [] then [] else
    var x := rows[0];
    (if x.content.channel == c && x.key.origin == origin && s <= x.key.seqno <= e then [x] else [])
      + OriginRange(rows[1..], c, origin, s, e)
  }

  /** `get_messages_for_origin_seq_range`. */
  function InSeqRange(rows: seq<Row>, c: Bytes, origin: Bytes, start: int, end: int, limit: int): (r: seq<Row>) {
    var s, e := if start > end then end else start, if start > end then start else end;
    Prefix(SortBy(BySeqno, OriginRange(rows, c, origin, s, e)), limit)
  }

  function NewerThan(rows: seq<Row>, c: Bytes, since: int): (r: seq<Row>)
    ensures forall x :: x in r <==> x in rows && x.content.channel == c && x.content.createdTs > since
  {
    if rows == [] then [] else
    (if rows[0].content.channel == c && rows[0].content.createdTs > since then [rows[0]] else [])
      + NewerThan(rows[1..], c, since)
  }

  /** `get_messages_since`; SQL leaves the order of equal timestamps open, here it is by id. */
  function SinceTs(rows: seq<Row>, c: Bytes, since: int, limit: int): (r: seq<Row>) {
    Prefix(SortBy(ByTime, NewerThan(rows, c, since)), limit)
  }

  // ------------------------------------------------ distinctness of filters

  lemma {:induction false} FiltersStayDistinct(rows: seq<Row>, c: Bytes, origin: Bytes, s: int, e: int)
    requires IdsDistinct(rows) && KeysDistinct(rows)
    ensures IdsDistinct(InChannel(rows, c)) && KeysDistinct(InChannel(rows, c))
    ensures IdsDistinct(OriginRange(rows, c, origin, s, e)) && KeysDistinct(OriginRange(rows, c, origin, s, e))
  {
    if rows != [] {
      FiltersStayDistinct(rows[1..], c, origin, s, e);
      ConsDistinct(rows[0], rows[1..], InChannel(rows[1..], c));
      ConsDistinct(rows[0], rows[1..], OriginRange(rows[1..], c, origin, s, e));
      assert [] + InChannel(rows[1..], c) == InChannel(rows[1..], c);
      assert [] + OriginRange(rows[1..], c, origin, s, e) == OriginRange(rows[1..], c, origin, s, e);
    }
  }

  lemma ConsDistinct(r: Row, rest: seq<Row>, sub: seq<Row>)
    requires IdsDistinct([r] + rest) && KeysDistinct([r] + rest) && IdsDistinct(sub) && KeysDistinct(sub)
    requires forall x | x in sub :: x in rest
    ensures IdsDistinct([r] + sub) && KeysDistinct([r] + sub)
  {
    var all := [r] + rest;
    forall j | 0 <= j < |sub| ensures sub[j].id != r.id && sub[j].key != r.key {
      assert sub[j] in rest;
      var i :| 0 <= i < |rest| && rest[i] == sub[j];
      assert all[i + 1] == sub[j] && all[0] == r;
    }
  }

  /** x is an earlier message than y, or one of the same second that was stored before it. */
  predicate Earlier(x: Row, y: Row) {
    x.content.createdTs < y.content.createdTs || (x.content.createdTs == y.content.createdTs && x.id < y.id)
  }

  predicate InTimeOrder(rows: seq<Row>) {
    forall i, j | 0 <= i < j < |rows| :: Earlier(rows[i], rows[j])
  }

  lemma SortedByTime(rows: seq<Row>)
    ensures Sorted(ByTime, rows) <==> InTimeOrder(rows)
  {
    assert forall i, j | 0 <= i < j < |rows| :: Before(ByTime, rows[i], rows[j]) <==> Earlier(rows[i], rows[j]);
  }

  /** The window of a channel, stated without sorting: the right number of the channel's rows, in time order,
      with every other row of the channel earlier than all of them. */
  ghost predicate IsWindow(rows: seq<Row>, c: Bytes, n: int, w: seq<Row>) {
    && InTimeOrder(w)
    && (forall x | x in w :: x in rows && x.content.channel == c)
    && |w| == (if n <= 0 then 0 else if |InChannel(rows, c)| <= n then |InChannel(rows, c)| else n)
    && (n > 0 ==> forall x, y | x in rows && x.content.channel == c && x !in w && y in w :: Earlier(x, y))
  }

  lemma TimelineSorted(t: Table, c: Bytes)
    requires TableOk(t)
    ensures Sorted(ByTime, Timeline(t.rows, c))
    ensures forall x :: x in Timeline(t.rows, c) <==> x in t.rows && x.content.channel == c
    ensures |Timeline(t.rows, c)| == |InChannel(t.rows, c)|
  {
    FiltersStayDistinct(t.rows, c, [], 0, 0);
    SortBySorts(ByTime, InChannel(t.rows, c));
    SameMembers(Timeline(t.rows, c), InChannel(t.rows, c));
  }

  lemma OutsideSuffix(all: seq<Row>, n: int, x: Row, y: Row)
    requires Sorted(ByTime, all) && n > 0 && x in all && x !in Suffix(all, n) && y in Suffix(all, n)
    ensures Earlier(x, y)
  {
  }

  lemma LastNIsWindow(t: Table, c: Bytes, n: int)
    requires TableOk(t)
    ensures IsWindow(t.rows, c, n, LastN(t.rows, c, n))
  {
    TimelineSorted(t, c);
    var all, w := Timeline(t.rows, c), LastN(t.rows, c, n);
    assert forall x | x in w :: x in all;
    SortedByTime(w);
    if n > 0 {
      forall x, y | x in t.rows && x.content.channel == c && x !in w && y in w ensures Earlier(x, y) {
        OutsideSuffix(all, n, x, y);
      }
    }
  }

  // ---------------------------------------------------------------- prune

  /** One DELETE of `prune_keep_last_n_per_channel`: drop the channel's rows outside its newest n. */
  function Keep(rows: seq<Row>, c: Bytes, kept: seq<Row>): (r: seq<Row>)
    ensures forall x :: x in r <==> x in rows && (x.content.channel == c ==> x in kept)
    ensures |r| <= |rows|
  {
    if rows == [] then [] else
    (if rows[0].content.channel == c ==> rows[0] in kept then [rows[0]] else []) + Keep(rows[1..], c, kept)
  }

  function PruneChannel(t: Table, c: Bytes, n: int): (t': Table) {
    t.(rows := Keep(t.rows, c, LastN(t.rows, c, n)))
  }

  function PruneAll(t: Table, channels: seq<Bytes>, n: int): (t': Table)
    decreases |channels|
  {
    if channels == [] then t else PruneAll(PruneChannel(t, channels[0], n), channels[1..], n)
  }

  lemma ConsOk(r: Row, rest: seq<Row>, sub: seq<Row>)
    requires IdsAscend([r] + rest) && KeysDistinct([r] + rest) && IdsAscend(sub) && KeysDistinct(sub)
    requires forall x | x in sub :: x in rest
    ensures IdsAscend([r] + sub) && KeysDistinct([r] + sub)
  {
    var all := [r] + rest;
    forall j | 0 <= j < |sub| ensures r.id < sub[j].id && sub[j].key != r.key {
      assert sub[j] in rest;
      var i :| 0 <= i < |rest| && rest[i] == sub[j];
      assert all[i + 1] == sub[j] && all[0] == r;
    }
  }

  lemma {:induction false} KeepStaysOk(rows: seq<Row>, c: Bytes, kept: seq<Row>)
    requires IdsAscend(rows) && KeysDistinct(rows)
    ensures IdsAscend(Keep(rows, c, kept)) && KeysDistinct(Keep(rows, c, kept))
  {
    if rows != [] {
      var rest := Keep(rows[1..], c, kept);
      KeepStaysOk(rows[1..], c, kept);
      assert rows == [rows[0]] + rows[1..];
      ConsOk(rows[0], rows[1..], rest);
      assert [] + rest == rest;
    }
  }

  lemma PruneChannelOk(t: Table, c: Bytes, n: int)
    requires TableOk(t)
    ensures TableOk(PruneChannel(t, c, n))
  {
    KeepStaysOk(t.rows, c, LastN(t.rows, c, n));
  }

  /** After one DELETE the pruned channel holds exactly its old window; other channels are untouched. */
  lemma PruneChannelTimeline(t: Table, c: Bytes, n: int, other: Bytes)
    requires TableOk(t)
    ensures Timeline(PruneChannel(t, c, n).rows, other)
         == if other == c then LastN(t.rows, c, n) else Timeline(t.rows, other)
  {
    var t' := PruneChannel(t, c, n);
    PruneChannelOk(t, c, n);
    TimelineSorted(t, other);
    TimelineSorted(t, c);
    TimelineSorted(t', other);
    LastNIsWindow(t, c, n);
    SortedByTime(LastN(t.rows, c, n));
    SortedUnique(ByTime, Timeline(t'.rows, other), if other == c then LastN(t.rows, c, n) else Timeline(t.rows, other));
  }

  lemma SuffixOfSuffix(rows: seq<Row>, n: int, m: int)
    requires m <= n
    ensures Suffix(Suffix(rows, n), m) == Suffix(rows, m)
  {
  }

  /** Prune transparency. Whichever channels are pruned, and with any number of them, no last-m query with
      m <= n changes its answer; every pruned channel ends with its newest n rows, every other channel intact. */
  lemma {:induction false} PruneTransparent(t: Table, channels: seq<Bytes>, n: int, c: Bytes)
    requires TableOk(t)
    ensures TableOk(PruneAll(t, channels, n))
    ensures forall m | m <= n :: LastN(PruneAll(t, channels, n).rows, c, m) == LastN(t.rows, c, m)
    ensures Timeline(PruneAll(t, channels, n).rows, c)
         == if c in channels then LastN(t.rows, c, n) else Timeline(t.rows, c)
    decreases |channels|
  {
    if channels != [] {
      var t1 := PruneChannel(t, channels[0], n);
      PruneChannelOk(t, channels[0], n);
      PruneChannelTimeline(t, channels[0], n, c);
      PruneTransparent(t1, channels[1..], n, c);
      forall m | m <= n ensures LastN(PruneAll(t, channels, n).rows, c, m) == LastN(t.rows, c, m) {
        SuffixOfSuffix(Timeline(t.rows, c), n, m);
      }
      SuffixOfSuffix(Timeline(t.rows, c), n, n);
      assert c in channels <==> c == channels[0] || c in channels[1..];
    }
  }

  // -------------------------------------------------------- list_channels

  function ChannelSet(rows: seq<Row>): (s: set<Bytes>) {
    set i | 0 <= i < |rows| :: rows[i].content.channel
  }

  /** MAX(created_ts) of a channel. */
  function LastActivity(rows: seq<Row>, c: Bytes): (r: Option<int>) {
    if rows == [] then None else
    var rest := LastActivity(rows[1..], c);
    var ts := rows[0].content.createdTs;
    if rows[0].content.channel != c || (rest.Some? && rest.value >= ts) then rest else Some(ts)
  }

  /** It is the largest one, for a channel that has rows. */
  lemma {:induction false} LastActivityIsMax(rows: seq<Row>, c: Bytes)
    ensures LastActivity(rows, c).Some? <==> exists x :: x in rows && x.content.channel == c
    ensures LastActivity(rows, c).Some? ==>
              && (exists x :: x in rows && x.content.channel == c && x.content.createdTs == LastActivity(rows, c).value)
              && forall x | x in rows && x.content.channel == c :: x.content.createdTs <= LastActivity(rows, c).value
  {
    if rows != [] {
      LastActivityIsMax(rows[1..], c);
      assert rows == [rows[0]] + rows[1..];
      assert rows[0] in rows;
    }
  }

  predicate NoLessActive(rows: seq<Row>, a: Bytes, b: Bytes) {
    LastActivity(rows, b).Some? ==>
      LastActivity(rows, a).Some? && LastActivity(rows, a).value >= LastActivity(rows, b).value
  }

  /** What `list_channels(limit)` answers, whatever order SQL gives channels with equal last activity. */
  ghost predicate IsListing(rows: seq<Row>, limit: nat, listed: seq<Bytes>) {
    && (forall i, j | 0 <= i < j < |listed| :: listed[i] != listed[j] && NoLessActive(rows, listed[i], listed[j]))
    && (forall c | c in listed :: c in ChannelSet(rows))
    && (forall a, b | a in listed && b in ChannelSet(rows) && b !in listed :: NoLessActive(rows, a, b))
    && |listed| == (if |ChannelSet(rows)| <= limit then |ChannelSet(rows)| else limit)
  }

  /** The channels of a set by falling last activity; which of two equally active ones comes first is open. */
  ghost function Listing(rows: seq<Row>, cs: set<Bytes>, limit: nat): (listed: seq<Bytes>) {
    if cs == {} || limit == 0 then [] else
    SomeMostActive(rows, cs);
    var c :| c in cs && forall d | d in cs :: NoLessActive(rows, c, d);
    [c] + Listing(rows, cs - {c}, limit - 1)
  }

  lemma {:induction false} SomeMostActive(rows: seq<Row>, cs: set<Bytes>)
    requires cs != {}
    ensures exists c :: c in cs && forall d | d in cs :: NoLessActive(rows, c, d)
  {
    var x := Pick(cs);
    var rest := cs - {x};
    var best := x;
    if rest != {} {
      SomeMostActive(rows, rest);
      var y :| y in rest && forall d | d in rest :: NoLessActive(rows, y, d);
      best := if NoLessActive(rows, x, y) then x else y;
    }
    forall d | d in cs ensures NoLessActive(rows, best, d) {
      assert d == x || d in rest;
    }
  }

  /** Every table has a listing: the channels of the GROUP BY in the order of the ORDER BY, cut at the LIMIT. */
  lemma {:induction false} ListingLists(rows: seq<Row>, cs: set<Bytes>, limit: nat)
    ensures var listed := Listing(rows, cs, limit);
            && (forall i, j | 0 <= i < j < |listed| ::
                  listed[i] != listed[j] && NoLessActive(rows, listed[i], listed[j]))
            && (forall c | c in listed :: c in cs)
            && (forall a, b | a in listed && b in cs && b !in listed :: NoLessActive(rows, a, b))
            && |listed| == (if |cs| <= limit then |cs| else limit)
    decreases limit
  {
    if cs != {} && limit > 0 {
      SomeMostActive(rows, cs);
      var listed := Listing(rows, cs, limit);
      var c := listed[0];
      ListingLists(rows, cs - {c}, limit - 1);
      assert listed[1..] == Listing(rows, cs - {c}, limit - 1);
      forall j | 0 < j < |listed| ensures listed[j] in cs - {c} {
        assert listed[j] == listed[1..][j - 1];
      }
    }
  }

  lemma ListingExists(rows: seq<Row>, limit: nat)
    ensures IsListing(rows, limit, Listing(rows, ChannelSet(rows), limit))
  {
    ListingLists(rows, ChannelSet(rows), limit);
  }

  /** Of two listed channels, or a listed one and one left out, the later has no message after the former's latest. */
  lemma ListedByActivity(rows: seq<Row>, limit: nat, listed: seq<Bytes>, i: nat, b: Bytes, y: Row) returns (x: Row)
    requires IsListing(rows, limit, listed) && i < |listed| && y in rows && y.content.channel == b
    requires b !in listed || exists j :: i < j < |listed| && listed[j] == b
    ensures x in rows && x.content.channel == listed[i] && x.content.createdTs >= y.content.createdTs
  {
    InChannelSet(rows, y);
    LastActivityIsMax(rows, b);
    LastActivityIsMax(rows, listed[i]);
    assert NoLessActive(rows, listed[i], b);
    x :| x in rows && x.content.channel == listed[i] && x.content.createdTs == LastActivity(rows, listed[i]).value;
  }

  lemma InChannelSet(rows: seq<Row>, x: Row)
    requires x in rows
    ensures x.content.channel in ChannelSet(rows)
  {
    var i :| 0 <= i < |rows| && rows[i] == x;
    assert rows[i].content.channel in ChannelSet(rows);
  }

  lemma ListsAllWhenFew(rows: seq<Row>, limit: nat, listed: seq<Bytes>, c: Bytes)
    requires IsListing(rows, limit, listed) && |ChannelSet(rows)| <= limit && c in ChannelSet(rows)
    ensures c in listed
  {
    if c !in listed {
      DistinctFits(listed, ChannelSet(rows) - {c});
    }
  }

  /** With at most `limit` channels every channel ends with min(n, old count) rows. */
  lemma PruneCounts(t: Table, limit: nat, listed: seq<Bytes>, n: int, c: Bytes)
    requires TableOk(t) && IsListing(t.rows, limit, listed) && |ChannelSet(t.rows)| <= limit && n >= 1
    ensures |InChannel(PruneAll(t, listed, n).rows, c)|
         == if |InChannel(t.rows, c)| <= n then |InChannel(t.rows, c)| else n
  {
    PruneTransparent(t, listed, n, c);
    TimelineSorted(t, c);
    TimelineSorted(PruneAll(t, listed, n), c);
    if c !in listed && InChannel(t.rows, c) != [] {
      InChannelSet(t.rows, InChannel(t.rows, c)[0]);
      ListsAllWhenFew(t.rows, limit, listed, c);
    }
  }

  // ------------------------------------------------- the mutable object

  class Store {
    var rows: seq<Row>
    var nextId: nat

    function State(): (t: Table)
      reads this
    {
      Table(rows, nextId)
    }

    constructor ()
      ensures State() == EMPTY_TABLE
    {
      rows, nextId := [], 1;
    }

    method HasMessage(k: Key) returns (found: bool)
      ensures found <==> HasKey(rows, k)
    {
      for i := 0 to |rows|
        invariant !HasKey(rows[..i], k)
      {
        if rows[i].key == k {
          return true;
        }
        assert rows[..i + 1] == rows[..i] + [rows[i]];
      }
      assert rows[..|rows|] == rows;
      found := false;
    }

    /** `inserted` is whether the storage hook fires (rowcount == 1). */
    method AddMessage(k: Key, c: Content, ts: real) returns (inserted: bool)
      requires TableOk(State())
      modifies this
      ensures State() == Add(old(State()), k, c, ts) && TableOk(State())
      ensures inserted <==> !HasKey(old(rows), k)
    {
      inserted := !HasKey(rows, k);
      ghost var before := State();
      if inserted {
        rows, nextId := rows + [Row(nextId, k, c, ts)], nextId + 1;
      }
      assert State() == Add(before, k, c, ts);
    }

    /** `prune_keep_last_n_per_channel` once `list_channels(limit=10_000)` has answered `listed`;
        None is ValueError, otherwise the number of rows deleted. */
    method PruneKeepLastN(listed: seq<Bytes>, n: int) returns (deleted: Option<int>)
      requires TableOk(State())
      modifies this
      ensures n < 1 ==> deleted == None && State() == old(State())
      ensures n >= 1 ==> State() == PruneAll(old(State()), listed, n) && deleted == Some(|old(rows)| - |rows|)
      ensures TableOk(State())
    {
      if n < 1 {
        return None;
      }
      var total := 0;
      var rest := listed;
      while rest != []
        invariant TableOk(State())
        invariant PruneAll(State(), rest, n) == PruneAll(old(State()), listed, n)
        invariant total == |old(rows)| - |rows|
        decreases |rest|
      {
        PruneChannelOk(State(), rest[0], n);
        var kept := Keep(rows, rest[0], LastN(rows, rest[0], n));
        total := total + (|rows| - |kept|);
        rows := kept;
        rest := rest[1..];
      }
      deleted := Some(total);
    }
  }
}
