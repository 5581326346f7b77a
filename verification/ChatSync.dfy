/** Anti-entropy sync between two chat stores (chat_client.py:703-767, 932-1114): what a requester asks, what a
    responder sends, what the requester stores, and why repeated rounds converge. */
module ChatSync {
  import opened Basics
  import opened Bytes
  import opened ChatProtocol
  import opened ChatStore

  /** `sync_last_n_messages` and `sync_max_send_per_response`. */
  datatype SyncConfig = SyncConfig(lastN: int, maxSend: int)

  /** The larger of 1 and the setting. */
  function Limit(cfg: SyncConfig): (m: nat)
    ensures m >= 1 && m >= cfg.maxSend && (m == 1 || m == cfg.maxSend)
  {
    if cfg.maxSend <= 0 then 1 else cfg.maxSend
  }

  function AsRecord(r: Row): Record {
    Record(r.key.origin, r.key.seqno, r.content.nick, r.content.text, r.content.createdTs)
  }

  function Records(rows: seq<Row>): (r: seq<Record>)
    ensures |r| == |rows| && forall i | 0 <= i < |rows| :: r[i] == AsRecord(rows[i])
  {
    seq(|rows|, i requires 0 <= i < |rows| => AsRecord(rows[i]))
  }

  function MinInt(a: int, b: int): int { if a <= b then a else b }
  function MaxInt(a: int, b: int): int { if a <= b then b else a }

  // ------------------------------------------------------ specification

  /** The inventory of `request_sync_last_n`: the highest seqno per origin. */
  function MaxSeqnos(rows: seq<Row>): (inv: map<Bytes, int>) {
    if rows == [] then map[] else
    var inv, k := MaxSeqnos(rows[..|rows| - 1]), rows[|rows| - 1].key;
    if k.origin in inv && k.seqno <= inv[k.origin] then inv else inv[k.origin := k.seqno]
  }

  predicate Covered(inv: map<Bytes, int>, r: Row) {
    r.key.origin in inv && r.key.seqno <= inv[r.key.origin]
  }

  function Uncovered(rows: seq<Row>, inv: map<Bytes, int>): (out: seq<Row>)
    ensures forall x :: x in out ==> x in rows
  {
    if rows == [] then [] else (if Covered(inv, rows[0]) then [] else [rows[0]]) + Uncovered(rows[1..], inv)
  }

  /** The rows `_handle_sync_request` sends, or None where it returns without answering. */
  function Answer(rows: seq<Row>, cfg: SyncConfig, c: Bytes, q: SyncRequest): (sent: Option<seq<Row>>) {
    match q
    case Since(ts) => Some(SinceTs(rows, c, ts, Limit(cfg)))
    case SeqRange(origin, s, e) => Some(InSeqRange(rows, c, origin, s, e, Limit(cfg)))
    case Inventory(lastN, inv) =>
      if lastN <= 0 then None else
      var n := if lastN > cfg.lastN then cfg.lastN else lastN;
      Some(Prefix(Uncovered(LastN(rows, c, n), inv), Limit(cfg)))
  }

  function RecordKey(r: Record): Key { Key(r.origin, r.seqno) }
  function RecordContent(r: Record, c: Bytes): Content { Content(c, r.nick, r.text, r.ts) }

  /** `_handle_sync_response`: malformed records and records already held are skipped; one that cannot be
      converted raises, and the rest of the response is lost. */
  function Apply(t: Table, c: Bytes, items: seq<Item>, now: real): (t': Table)
    requires TableOk(t)
    ensures TableOk(t')
    decreases |items|
  {
    if items == [] then t else
    match items[0]
    case Unconvertible => t
    case Malformed => Apply(t, c, items[1..], now)
    case Good(record) => Apply(Add(t, RecordKey(record), RecordContent(record, c), now), c, items[1..], now)
  }

  /** The requester's table after it stored a response made of these rows. */
  function ApplyRows(t: Table, c: Bytes, sent: seq<Row>, now: real): (t': Table)
    requires TableOk(t)
    ensures TableOk(t')
  {
    Apply(t, c, AllGood(Records(sent)), now)
  }

  // ------------------------------------------------------ what is stored

  lemma ApplyRowsCons(t: Table, c: Bytes, sent: seq<Row>, now: real)
    requires TableOk(t) && sent != []
    ensures ApplyRows(t, c, sent, now)
         == ApplyRows(Add(t, sent[0].key, RecordContent(AsRecord(sent[0]), c), now), c, sent[1..], now)
  {
    assert AllGood(Records(sent))[1..] == AllGood(Records(sent[1..]));
    assert RecordKey(AsRecord(sent[0])) == sent[0].key;
  }

  predicate SomeKey(sent: seq<Row>, k: Key) {
    exists i :: 0 <= i < |sent| && sent[i].key == k
  }

  lemma AddKeys(t: Table, k: Key, content: Content, now: real, q: Key)
    requires TableOk(t)
    ensures HasKey(Add(t, k, content, now).rows, q) <==> HasKey(t.rows, q) || q == k
  {
  }

  /** Storing a response adds exactly the keys sent, at the end, and loses nothing. */
  lemma {:induction false} ApplyRowsKeys(t: Table, c: Bytes, sent: seq<Row>, now: real, q: Key)
    requires TableOk(t)
    ensures HasKey(ApplyRows(t, c, sent, now).rows, q) <==> HasKey(t.rows, q) || SomeKey(sent, q)
    ensures t.rows <= ApplyRows(t, c, sent, now).rows
    decreases |sent|
  {
    if sent != [] {
      var t1 := Add(t, sent[0].key, RecordContent(AsRecord(sent[0]), c), now);
      ApplyRowsCons(t, c, sent, now);
      ApplyRowsKeys(t1, c, sent[1..], now, q);
      AddKeys(t, sent[0].key, RecordContent(AsRecord(sent[0]), c), now, q);
      SomeKeyCons(sent, q);
    }
  }

  lemma SomeKeyCons(sent: seq<Row>, q: Key)
    requires sent != []
    ensures SomeKey(sent, q) <==> sent[0].key == q || SomeKey(sent[1..], q)
  {
  }

  /** Every row is an old one, or says what some row that was sent says. */
  lemma {:induction false} ApplyRowsOrigin(t: Table, c: Bytes, sent: seq<Row>, now: real, x: Row)
    requires TableOk(t) && forall r | r in sent :: r.content.channel == c
    requires x in ApplyRows(t, c, sent, now).rows
    ensures x in t.rows || exists r :: r in sent && r.key == x.key && r.content == x.content
    decreases |sent|
  {
    if sent != [] {
      var content := RecordContent(AsRecord(sent[0]), c);
      ApplyRowsCons(t, c, sent, now);
      assert sent[0] in sent && content == sent[0].content;
      ApplyRowsOrigin(Add(t, sent[0].key, content, now), c, sent[1..], now, x);
    }
  }

  lemma {:induction false} ApplyRowsCount(t: Table, c: Bytes, sent: seq<Row>, now: real)
    requires TableOk(t) && KeysDistinct(sent) && forall r | r in sent :: !HasKey(t.rows, r.key)
    ensures |ApplyRows(t, c, sent, now).rows| == |t.rows| + |sent|
    decreases |sent|
  {
    if sent != [] {
      var content := RecordContent(AsRecord(sent[0]), c);
      assert sent[0] in sent;
      ApplyRowsCons(t, c, sent, now);
      forall r | r in sent[1..] ensures !HasKey(Add(t, sent[0].key, content, now).rows, r.key) {
        AddKeys(t, sent[0].key, content, now, r.key);
        var i :| 0 <= i < |sent[1..]| && sent[1..][i] == r;
        assert sent[i + 1] == r;
      }
      ApplyRowsCount(Add(t, sent[0].key, content, now), c, sent[1..], now);
    }
  }

  lemma {:induction false} ApplyRowsHeld(t: Table, c: Bytes, sent: seq<Row>, now: real)
    requires TableOk(t) && forall r | r in sent :: HasKey(t.rows, r.key)
    ensures ApplyRows(t, c, sent, now) == t
    decreases |sent|
  {
    if sent != [] {
      assert sent[0] in sent;
      ApplyRowsCons(t, c, sent, now);
      ApplyRowsHeld(t, c, sent[1..], now);
    }
  }

  // -------------------------------------------------- agreement of stores

  /** Two stores never say different things under one key. */
  ghost predicate Agree(a: Table, b: Table) {
    forall x, y | x in a.rows && y in b.rows && x.key == y.key :: x.content == y.content
  }

  // ----------------------------------------------------------- range sync

  /** A range answer is the lowest-numbered part of the matching rows, whichever way round the bounds are. */
  lemma RangeAnswer(resp: Table, cfg: SyncConfig, c: Bytes, origin: Bytes, s: int, e: int)
    requires TableOk(resp)
    ensures var all := OriginRange(resp.rows, c, origin, MinInt(s, e), MaxInt(s, e));
            var sent := Answer(resp.rows, cfg, c, SeqRange(origin, s, e)).value;
            && |sent| == MinInt(|all|, Limit(cfg))
            && (forall x | x in sent :: x in all)
            && (forall x, y | x in sent && y in all && y !in sent :: x.key.seqno < y.key.seqno)
  {
    var all := OriginRange(resp.rows, c, origin, MinInt(s, e), MaxInt(s, e));
    var sent := Prefix(SortBy(BySeqno, all), Limit(cfg));
    FiltersStayDistinct(resp.rows, c, origin, MinInt(s, e), MaxInt(s, e));
    SameMembers(SortBy(BySeqno, all), all);
    forall x, y | x in sent && y in all && y !in sent ensures x.key.seqno < y.key.seqno {
      LowestPrefix(all, Limit(cfg), x, y);
    }
  }

  /** Storing rows of the responder: all of them are then held, nothing is lost, storing them again changes
      nothing, and agreeing stores go on agreeing. */
  lemma StoredIsHeld(req: Table, resp: Table, c: Bytes, sent: seq<Row>, now: real, later: real)
    requires TableOk(req) && TableOk(resp) && forall x | x in sent :: x in resp.rows && x.content.channel == c
    ensures var after := ApplyRows(req, c, sent, now);
            && (forall x | x in sent :: HasKey(after.rows, x.key))
            && req.rows <= after.rows
            && ApplyRows(after, c, sent, later) == after
            && (Agree(req, resp) ==>
                  && Agree(after, resp)
                  && forall x | x in sent :: exists y :: y in after.rows && y.key == x.key && y.content == x.content)
  {
    var after := ApplyRows(req, c, sent, now);
    forall x | x in sent ensures HasKey(after.rows, x.key) {
      var i :| 0 <= i < |sent| && sent[i] == x;
      ApplyRowsKeys(req, c, sent, now, x.key);
    }
    ApplyRowsKeys(req, c, sent, now, Key([], 0));
    ApplyRowsHeld(after, c, sent, later);
    if Agree(req, resp) {
      AgreeKept(req, resp, c, sent, now);
      forall x | x in sent ensures exists y :: y in after.rows && y.key == x.key && y.content == x.content {
        var i :| 0 <= i < |after.rows| && after.rows[i].key == x.key;
        assert after.rows[i] in after.rows;
      }
    }
  }

  /** Range-sync repair. After a range request is answered and applied, the requester holds the
      lowest-numbered min(limit, count) of the responder's matching rows, has lost nothing, and applying the
      response again changes nothing; the bounds may come in either order. When the two
      stores agree, what it holds says what the responder's say. */
  lemma RangeRepair(req: Table, resp: Table, cfg: SyncConfig, c: Bytes, origin: Bytes, s: int, e: int, now: real,
                    later: real)
    requires TableOk(req) && TableOk(resp)
    ensures var all := OriginRange(resp.rows, c, origin, MinInt(s, e), MaxInt(s, e));
            var sent := Answer(resp.rows, cfg, c, SeqRange(origin, s, e)).value;
            var after := ApplyRows(req, c, sent, now);
            && |sent| == MinInt(|all|, Limit(cfg))
            && (forall x | x in sent :: x in all && HasKey(after.rows, x.key))
            && (forall x, y | x in sent && y in all && y !in sent :: x.key.seqno < y.key.seqno)
            && req.rows <= after.rows
            && ApplyRows(after, c, sent, later) == after
            && (Agree(req, resp) ==>
                  && Agree(after, resp)
                  && forall x | x in sent :: exists y :: y in after.rows && y.key == x.key && y.content == x.content)
  {
    RangeAnswer(resp, cfg, c, origin, s, e);
    StoredIsHeld(req, resp, c, Answer(resp.rows, cfg, c, SeqRange(origin, s, e)).value, now, later);
  }

  lemma LowestPrefix(all: seq<Row>, limit: int, x: Row, y: Row)
    requires IdsDistinct(all) && KeysDistinct(all) && limit >= 1
    requires forall a, b | a in all && b in all :: a.key.origin == b.key.origin
    requires x in Prefix(SortBy(BySeqno, all), limit) && y in all && y !in Prefix(SortBy(BySeqno, all), limit)
    ensures x.key.seqno < y.key.seqno
  {
    var sorted := SortBy(BySeqno, all);
    var sent := Prefix(sorted, limit);
    SortBySorts(BySeqno, all);
    SameMembers(sorted, all);
    var i :| 0 <= i < |sent| && sent[i] == x;
    assert x == sorted[i];
    var j :| 0 <= j < |sorted| && sorted[j] == y;
    InPrefixOrAfter(sorted, limit, j);
    assert Before(BySeqno, x, y);
    var p :| 0 <= p < |all| && all[p] == x;
    var r :| 0 <= r < |all| && all[r] == y;
    assert x.key != y.key;
  }

  lemma InPrefixOrAfter(rows: seq<Row>, n: int, j: nat)
    requires j < |rows| && n >= 1
    ensures rows[j] in Prefix(rows, n) || j >= n
  {
  }

  lemma AgreeKept(req: Table, resp: Table, c: Bytes, sent: seq<Row>, now: real)
    requires TableOk(req) && TableOk(resp) && Agree(req, resp)
    requires forall x | x in sent :: x in resp.rows && x.content.channel == c
    ensures Agree(ApplyRows(req, c, sent, now), resp)
  {
    var after := ApplyRows(req, c, sent, now);
    forall x, y | x in after.rows && y in resp.rows && x.key == y.key ensures x.content == y.content {
      ApplyRowsOrigin(req, c, sent, now, x);
      if x !in req.rows {
        var r :| r in sent && r.key == x.key && r.content == x.content;
        OneRowPerKey(resp, r, y);
      }
    }
  }

  lemma OneRowPerKey(t: Table, a: Row, b: Row)
    requires TableOk(t) && a in t.rows && b in t.rows && a.key == b.key
    ensures a == b
  {
  }

  // ---------------------------------------------------------- last-N sync

  /** The rows whose keys a table lacks. */
  function Absent(rows: seq<Row>, held: seq<Row>): (out: seq<Row>)
    ensures forall x :: x in out <==> x in rows && !HasKey(held, x.key)
  {
    if rows == [] then [] else (if HasKey(held, rows[0].key) then [] else [rows[0]]) + Absent(rows[1..], held)
  }

  /** The responder's rows of the channel the requester lacks, oldest first. */
  function Lacking(req: Table, resp: Table, c: Bytes): (out: seq<Row>) {
    Absent(Timeline(resp.rows, c), req.rows)
  }

  /** Each origin's rows appear in sequence-number order. */
  predicate SeqnoOrder(rows: seq<Row>) {
    forall i, j | 0 <= i < j < |rows| && rows[i].key.origin == rows[j].key.origin ::
      rows[i].key.seqno < rows[j].key.seqno
  }

  /** The requester holds every responder row up to its own highest number from that origin. */
  ghost predicate HoldsPrefixes(req: Table, resp: Table, c: Bytes) {
    forall r, x | r in resp.rows && r.content.channel == c
                  && x in req.rows && x.content.channel == c && x.key.origin == r.key.origin
                  && r.key.seqno <= x.key.seqno :: HasKey(req.rows, r.key)
  }

  /** Rows i and j are of one origin and out of number order. */
  predicate OutOfOrder(lack: seq<Row>, i: int, j: int) {
    0 <= i < j < |lack| && lack[i].key.origin == lack[j].key.origin && lack[i].key.seqno > lack[j].key.seqno
  }

  /** The round that carries row i when `limit` rows go out in each: i / limit (`RoundOfIsQuotient`). */
  function RoundOf(i: int, limit: int): (n: nat)
    requires limit >= 1
    ensures n == 0 <==> i < limit
    decreases i
  {
    if i < limit then 0 else RoundOf(i - limit, limit) + 1
  }

  /** No round boundary falls between two rows of one origin that are out of number order: of lacking rows sent
      `limit` at a time, such a pair goes out in one response. */
  ghost predicate RoundsInOrder(lack: seq<Row>, limit: int)
    requires limit >= 1
  {
    forall i, j {:trigger OutOfOrder(lack, i, j)} | OutOfOrder(lack, i, j) :: RoundOf(i, limit) == RoundOf(j, limit)
  }

  /** The windows cover the channel on both sides, now and after everything lacking has been stored, and the stores
      agree. */
  ghost predicate WindowsCover(req: Table, resp: Table, c: Bytes, lastN: int, cfg: SyncConfig) {
    && TableOk(req) && TableOk(resp)
    && Agree(req, resp)
    && lastN > 0
    && |InChannel(req.rows, c)| + |Lacking(req, resp, c)| <= lastN
    && |InChannel(resp.rows, c)| <= lastN && |InChannel(resp.rows, c)| <= cfg.lastN
  }

  /** The conditions under which a round of last-N sync sends exactly what is lacking. */
  ghost predicate Ready(req: Table, resp: Table, c: Bytes, lastN: int, cfg: SyncConfig) {
    WindowsCover(req, resp, c, lastN, cfg) && HoldsPrefixes(req, resp, c)
  }

  /** The conditions under which every round to come does. */
  ghost predicate Repairable(req: Table, resp: Table, c: Bytes, cfg: SyncConfig) {
    HoldsPrefixes(req, resp, c) && RoundsInOrder(Lacking(req, resp, c), Limit(cfg))
  }

  ghost predicate Converging(req: Table, resp: Table, c: Bytes, lastN: int, cfg: SyncConfig) {
    WindowsCover(req, resp, c, lastN, cfg) && Repairable(req, resp, c, cfg)
  }

  /** One round: request with an inventory, answer, store. */
  function Round(req: Table, resp: Table, c: Bytes, lastN: int, cfg: SyncConfig, now: real): (t: Table)
    requires TableOk(req)
    ensures TableOk(t)
  {
    if lastN <= 0 then req else
    var q := Inventory(lastN, MaxSeqnos(LastN(req.rows, c, lastN)));
    match Answer(resp.rows, cfg, c, q)
    case None => req
    case Some(sent) => ApplyRows(req, c, sent, now)
  }

  lemma {:induction false} MaxSeqnosMeaning(rows: seq<Row>)
    ensures var inv := MaxSeqnos(rows);
            && (forall r | r in rows :: Covered(inv, r))
            && (forall o | o in inv :: exists r :: r in rows && r.key == Key(o, inv[o]))
  {
    if rows != [] {
      var front, last := rows[..|rows| - 1], rows[|rows| - 1];
      MaxSeqnosMeaning(front);
      var inv := MaxSeqnos(rows);
      assert rows == front + [last];
      forall o | o in inv ensures exists r :: r in rows && r.key == Key(o, inv[o]) {
        if last.key != Key(o, inv[o]) {
          var r :| r in front && r.key == Key(o, inv[o]);
          assert r in rows;
        } else {
          assert last in rows;
        }
      }
    }
  }

  /** A responder row the requester holds is covered by the inventory. */
  lemma HeldIsCovered(req: Table, resp: Table, c: Bytes, lastN: int, cfg: SyncConfig, r: Row)
    requires WindowsCover(req, resp, c, lastN, cfg) && r in resp.rows && r.content.channel == c
    requires HasKey(req.rows, r.key)
    ensures Covered(MaxSeqnos(LastN(req.rows, c, lastN)), r)
  {
    var mine := LastN(req.rows, c, lastN);
    FullWindow(req.rows, c, lastN);
    TimelineSorted(req, c);
    MaxSeqnosMeaning(mine);
    var i :| 0 <= i < |req.rows| && req.rows[i].key == r.key;
    var x := req.rows[i];
    assert x in req.rows && x.content == r.content;
    assert Covered(MaxSeqnos(mine), x);
  }

  /** The inventory covers a responder row exactly when the requester holds it. */
  lemma CoveredMeansHeld(req: Table, resp: Table, c: Bytes, lastN: int, cfg: SyncConfig, r: Row)
    requires Ready(req, resp, c, lastN, cfg) && r in resp.rows && r.content.channel == c
    ensures Covered(MaxSeqnos(LastN(req.rows, c, lastN)), r) <==> HasKey(req.rows, r.key)
  {
    var mine := LastN(req.rows, c, lastN);
    var inv := MaxSeqnos(mine);
    if Covered(inv, r) {
      FullWindow(req.rows, c, lastN);
      TimelineSorted(req, c);
      MaxSeqnosMeaning(mine);
      var x :| x in mine && x.key == Key(r.key.origin, inv[r.key.origin]);
      assert x in req.rows && x.content.channel == c;
    }
    if HasKey(req.rows, r.key) {
      HeldIsCovered(req, resp, c, lastN, cfg, r);
    }
  }

  lemma {:induction false} UncoveredIsAbsent(rows: seq<Row>, inv: map<Bytes, int>, held: seq<Row>)
    requires forall r | r in rows :: Covered(inv, r) <==> HasKey(held, r.key)
    ensures Uncovered(rows, inv) == Absent(rows, held)
  {
    if rows != [] {
      assert rows[0] in rows;
      UncoveredIsAbsent(rows[1..], inv, held);
    }
  }

  lemma UncoveredIsLacking(req: Table, resp: Table, c: Bytes, lastN: int, cfg: SyncConfig)
    requires Ready(req, resp, c, lastN, cfg)
    ensures Uncovered(Timeline(resp.rows, c), MaxSeqnos(LastN(req.rows, c, lastN))) == Lacking(req, resp, c)
  {
    var inv := MaxSeqnos(LastN(req.rows, c, lastN));
    var theirs := Timeline(resp.rows, c);
    TimelineSorted(resp, c);
    forall r | r in theirs ensures Covered(inv, r) <==> HasKey(req.rows, r.key) {
      CoveredMeansHeld(req, resp, c, lastN, cfg, r);
    }
    UncoveredIsAbsent(theirs, inv, req.rows);
  }

  /** In a ready state a round stores exactly the oldest rows the requester lacks, up to the limit. */
  lemma RoundSendsLacking(req: Table, resp: Table, c: Bytes, lastN: int, cfg: SyncConfig, now: real)
    requires Ready(req, resp, c, lastN, cfg)
    ensures Round(req, resp, c, lastN, cfg, now) == ApplyRows(req, c, Prefix(Lacking(req, resp, c), Limit(cfg)), now)
  {
    var q := Inventory(lastN, MaxSeqnos(LastN(req.rows, c, lastN)));
    FullWindow(resp.rows, c, if lastN > cfg.lastN then cfg.lastN else lastN);
    UncoveredIsLacking(req, resp, c, lastN, cfg);
    assert Answer(resp.rows, cfg, c, q) == Some(Prefix(Lacking(req, resp, c), Limit(cfg)));
  }

  lemma FullWindow(rows: seq<Row>, c: Bytes, n: int)
    requires |InChannel(rows, c)| <= n
    ensures LastN(rows, c, n) == Timeline(rows, c)
  {
  }

  // ------------------------------------------------- progress of a round

  lemma ConcatTail(a: seq<Row>, b: seq<Row>)
    requires a != []
    ensures (a + b)[0] == a[0] && (a + b)[1..] == a[1..] + b
  {
  }

  lemma {:induction false} AbsentConcat(a: seq<Row>, b: seq<Row>, held: seq<Row>)
    ensures Absent(a + b, held) == Absent(a, held) + Absent(b, held)
  {
    if a == [] {
      assert a + b == b;
    } else {
      AbsentConcat(a[1..], b, held);
      ConcatTail(a, b);
      Assoc(if HasKey(held, a[0].key) then [] else [a[0]], Absent(a[1..], held), Absent(b, held));
    }
  }

  lemma {:induction false} AbsentExtremes(rows: seq<Row>, held: seq<Row>)
    ensures (forall r | r in rows :: HasKey(held, r.key)) ==> Absent(rows, held) == []
    ensures (forall r | r in rows :: !HasKey(held, r.key)) ==> Absent(rows, held) == rows
  {
    if rows != [] {
      AbsentExtremes(rows[1..], held);
      assert rows[0] in rows && rows == [rows[0]] + rows[1..];
    }
  }

  lemma {:induction false} AbsentTwice(rows: seq<Row>, held: seq<Row>, more: seq<Row>)
    requires forall k | HasKey(held, k) :: HasKey(more, k)
    ensures Absent(rows, more) == Absent(Absent(rows, held), more)
  {
    if rows != [] {
      AbsentTwice(rows[1..], held, more);
      var first := if HasKey(held, rows[0].key) then [] else [rows[0]];
      AbsentConcat(first, Absent(rows[1..], held), more);
      AbsentConcat([rows[0]], rows[1..], more);
      AbsentExtremes(first, more);
      AbsentExtremes([rows[0]], more);
    }
  }

  /** A filtered list inherits the distinctness and the order of its source. */
  lemma {:induction false} AbsentInherits(rows: seq<Row>, held: seq<Row>)
    requires KeysDistinct(rows)
    ensures KeysDistinct(Absent(rows, held)) && (SeqnoOrder(rows) ==> SeqnoOrder(Absent(rows, held)))
  {
    if rows != [] {
      var rest := Absent(rows[1..], held);
      TailInherits(rows);
      AbsentInherits(rows[1..], held);
      ConsInherits(rows[0], rows[1..], rest);
      assert [] + rest == rest;
    }
  }

  lemma TailInherits(rows: seq<Row>)
    requires KeysDistinct(rows) && rows != []
    ensures KeysDistinct(rows[1..]) && (SeqnoOrder(rows) ==> SeqnoOrder(rows[1..]))
    ensures rows == [rows[0]] + rows[1..]
  {
  }

  lemma ConsInherits(r: Row, rest: seq<Row>, sub: seq<Row>)
    requires KeysDistinct([r] + rest) && KeysDistinct(sub) && forall x | x in sub :: x in rest
    ensures KeysDistinct([r] + sub)
    ensures SeqnoOrder([r] + rest) && SeqnoOrder(sub) ==> SeqnoOrder([r] + sub)
  {
    var all := [r] + rest;
    forall j | 0 <= j < |sub|
      ensures sub[j].key != r.key
      ensures SeqnoOrder(all) && sub[j].key.origin == r.key.origin ==> r.key.seqno < sub[j].key.seqno
    {
      assert sub[j] in rest;
      var i :| 0 <= i < |rest| && rest[i] == sub[j];
      assert all[i + 1] == sub[j] && all[0] == r;
    }
  }

  lemma TimelineKeysDistinct(t: Table, c: Bytes)
    requires TableOk(t)
    ensures KeysDistinct(Timeline(t.rows, c))
  {
    var all := Timeline(t.rows, c);
    TimelineSorted(t, c);
    forall i, j | 0 <= i < j < |all| ensures all[i].key != all[j].key {
      assert all[i] in all && all[j] in all && Before(ByTime, all[i], all[j]);
      if all[i].key == all[j].key {
        OneRowPerKey(t, all[i], all[j]);
      }
    }
  }

  lemma LackingShape(req: Table, resp: Table, c: Bytes)
    requires TableOk(req) && TableOk(resp)
    ensures var lack := Lacking(req, resp, c);
            && KeysDistinct(lack) && (SeqnoOrder(Timeline(resp.rows, c)) ==> SeqnoOrder(lack))
            && forall x :: x in lack <==> x in resp.rows && x.content.channel == c && !HasKey(req.rows, x.key)
  {
    TimelineSorted(resp, c);
    TimelineKeysDistinct(resp, c);
    AbsentInherits(Timeline(resp.rows, c), req.rows);
  }

  lemma SentIsHeld(lack: seq<Row>, k: nat, more: seq<Row>)
    requires k <= |lack| && forall q | SomeKey(lack[..k], q) :: HasKey(more, q)
    ensures Absent(lack[..k], more) == []
  {
    var sent := lack[..k];
    forall r | r in sent ensures HasKey(more, r.key) {
      var i :| 0 <= i < |sent| && sent[i] == r;
      assert SomeKey(sent, r.key);
    }
    AbsentExtremes(sent, more);
  }

  lemma LeftIsAbsent(lack: seq<Row>, k: nat, held: seq<Row>, more: seq<Row>)
    requires k <= |lack| && KeysDistinct(lack)
    requires forall q | HasKey(more, q) :: HasKey(held, q) || SomeKey(lack[..k], q)
    requires forall r | r in lack :: !HasKey(held, r.key)
    ensures Absent(lack[k..], more) == lack[k..]
  {
    var left := lack[k..];
    forall r | r in left ensures !HasKey(more, r.key) {
      var i :| 0 <= i < |left| && left[i] == r;
      assert r == lack[k + i] && r in lack;
    }
    AbsentExtremes(left, more);
  }

  lemma SplitHeld(lack: seq<Row>, k: nat, held: seq<Row>, more: seq<Row>)
    requires k <= |lack| && KeysDistinct(lack)
    requires forall q :: HasKey(more, q) <==> HasKey(held, q) || SomeKey(lack[..k], q)
    requires forall r | r in lack :: !HasKey(held, r.key)
    ensures Absent(lack, more) == lack[k..]
  {
    SentIsHeld(lack, k, more);
    LeftIsAbsent(lack, k, held, more);
    AbsentConcat(lack[..k], lack[k..], more);
    assert lack == lack[..k] + lack[k..];
  }

  lemma StoredKeys(req: Table, c: Bytes, sent: seq<Row>, now: real)
    requires TableOk(req)
    ensures forall q :: HasKey(ApplyRows(req, c, sent, now).rows, q) <==> HasKey(req.rows, q) || SomeKey(sent, q)
  {
    forall q ensures HasKey(ApplyRows(req, c, sent, now).rows, q) <==> HasKey(req.rows, q) || SomeKey(sent, q) {
      ApplyRowsKeys(req, c, sent, now, q);
    }
  }

  /** After storing the first k lacking rows, exactly the others are lacking. */
  lemma LackingShrinks(req: Table, resp: Table, c: Bytes, k: nat, now: real)
    requires TableOk(req) && TableOk(resp) && k <= |Lacking(req, resp, c)|
    ensures Lacking(ApplyRows(req, c, Lacking(req, resp, c)[..k], now), resp, c) == Lacking(req, resp, c)[k..]
  {
    var lack := Lacking(req, resp, c);
    var more := ApplyRows(req, c, lack[..k], now).rows;
    LackingShape(req, resp, c);
    StoredKeys(req, c, lack[..k], now);
    AbsentTwice(Timeline(resp.rows, c), req.rows, more);
    SplitHeld(lack, k, req.rows, more);
  }

  lemma StoredCount(req: Table, resp: Table, c: Bytes, k: nat, now: real)
    requires TableOk(req) && TableOk(resp) && k <= |Lacking(req, resp, c)|
    ensures |ApplyRows(req, c, Lacking(req, resp, c)[..k], now).rows| == |req.rows| + k
  {
    var lack := Lacking(req, resp, c);
    LackingShape(req, resp, c);
    forall r | r in lack[..k] ensures !HasKey(req.rows, r.key) {
      assert r in lack;
    }
    ApplyRowsCount(req, c, lack[..k], now);
  }

  // ----------------------------------------------- holes and the order of rows

  /** A row of the responder the requester lacks although it holds a higher number from that origin. */
  predicate Hole(req: Table, resp: Table, c: Bytes, hole: Row, above: Row) {
    && hole in resp.rows && hole.content.channel == c && !HasKey(req.rows, hole.key)
    && above in req.rows && above.content.channel == c
    && above.key.origin == hole.key.origin && hole.key.seqno <= above.key.seqno
  }

  lemma FindHole(req: Table, resp: Table, c: Bytes) returns (hole: Row, above: Row)
    requires !HoldsPrefixes(req, resp, c)
    ensures Hole(req, resp, c, hole, above)
  {
    hole, above :| hole in resp.rows && hole.content.channel == c
                   && above in req.rows && above.content.channel == c && above.key.origin == hole.key.origin
                   && hole.key.seqno <= above.key.seqno && !HasKey(req.rows, hole.key);
  }

  /** None of the first k rows has a higher number than a later row of its origin. */
  ghost predicate InOrderAt(lack: seq<Row>, k: int) {
    forall i, j | OutOfOrder(lack, i, j) :: !(i < k <= j)
  }

  lemma SplitMembers(lack: seq<Row>, k: nat, i: nat)
    requires k <= |lack| && i < |lack|
    ensures if i < k then lack[i] in lack[..k] else lack[i] in lack[k..]
  {
    if i < k {
      assert lack[..k][i] == lack[i];
    } else {
      assert lack[k..][i - k] == lack[i];
    }
  }

  lemma StoredBelow(lack: seq<Row>, k: nat, r: Row, s: Row)
    requires k <= |lack| && KeysDistinct(lack) && InOrderAt(lack, k) && r in lack && s in lack[..k]
    requires r.key.origin == s.key.origin && r.key.seqno <= s.key.seqno
    ensures SomeKey(lack[..k], r.key)
  {
    var j :| 0 <= j < |lack| && lack[j] == r;
    var i :| 0 <= i < k && lack[..k][i] == s;
    assert lack[i] == s;
    assert !OutOfOrder(lack, i, j) || j < k;
    if j < k {
      assert lack[..k][j].key == r.key;
    }
  }

  /** Storing the first k lacking rows leaves no hole if they are in order with the rest. */
  lemma PrefixKept(req: Table, resp: Table, c: Bytes, k: nat, now: real, hole: Row, above: Row)
    requires TableOk(req) && TableOk(resp) && k <= |Lacking(req, resp, c)|
    requires HoldsPrefixes(req, resp, c) && InOrderAt(Lacking(req, resp, c), k)
    ensures !Hole(ApplyRows(req, c, Lacking(req, resp, c)[..k], now), resp, c, hole, above)
  {
    var lack := Lacking(req, resp, c);
    var sent := lack[..k];
    var after := ApplyRows(req, c, sent, now);
    LackingShape(req, resp, c);
    forall y | y in sent ensures y.content.channel == c {
      assert y in lack;
    }
    ApplyRowsKeys(req, c, sent, now, hole.key);
    if Hole(after, resp, c, hole, above) {
      ApplyRowsOrigin(req, c, sent, now, above);
      var s :| s in sent && s.key == above.key && s.content == above.content;
      StoredBelow(lack, k, hole, s);
    }
  }

  /** A row left behind by a higher number of its origin is a hole from then on. */
  lemma HoleMade(req: Table, resp: Table, c: Bytes, k: nat, now: real, i: nat, j: nat)
    requires TableOk(req) && TableOk(resp) && Agree(req, resp) && i < k <= j < |Lacking(req, resp, c)|
    requires OutOfOrder(Lacking(req, resp, c), i, j)
    ensures !HoldsPrefixes(ApplyRows(req, c, Lacking(req, resp, c)[..k], now), resp, c)
  {
    var lack := Lacking(req, resp, c);
    var sent := lack[..k];
    var after := ApplyRows(req, c, sent, now);
    LackingShape(req, resp, c);
    LackingShape(after, resp, c);
    LackingShrinks(req, resp, c, k, now);
    SplitMembers(lack, k, i);
    SplitMembers(lack, k, j);
    forall x | x in sent ensures x in resp.rows && x.content.channel == c {
      assert x in lack;
    }
    StoredIsHeld(req, resp, c, sent, now, now);
    var above :| above in after.rows && above.key == lack[i].key && above.content == lack[i].content;
    assert Hole(after, resp, c, lack[j], above);
  }

  /** Storing the first k lacking rows keeps prefixes exactly when no row among them overtakes one of the rest. */
  lemma PrefixesKept(req: Table, resp: Table, c: Bytes, k: nat, now: real)
    requires TableOk(req) && TableOk(resp) && Agree(req, resp) && k <= |Lacking(req, resp, c)|
    requires HoldsPrefixes(req, resp, c)
    ensures HoldsPrefixes(ApplyRows(req, c, Lacking(req, resp, c)[..k], now), resp, c)
       <==> InOrderAt(Lacking(req, resp, c), k)
  {
    var lack := Lacking(req, resp, c);
    var after := ApplyRows(req, c, lack[..k], now);
    if InOrderAt(lack, k) {
      if !HoldsPrefixes(after, resp, c) {
        var hole, above := FindHole(after, resp, c);
        PrefixKept(req, resp, c, k, now, hole, above);
      }
    } else {
      var i, j :| OutOfOrder(lack, i, j) && i < k <= j;
      HoleMade(req, resp, c, k, now, i, j);
    }
  }

  lemma {:induction false} RoundOfIsQuotient(i: nat, limit: int)
    requires limit >= 1
    ensures RoundOf(i, limit) == i / limit
  {
    if i < limit {
      QuotientIs(i, limit, 0, i);
    } else {
      RoundOfIsQuotient(i - limit, limit);
      var q, r := (i - limit) / limit, (i - limit) % limit;
      assert i == (q + 1) * limit + r;
      QuotientIs(i, limit, q + 1, r);
    }
  }

  lemma OutOfOrderTail(lack: seq<Row>, k: nat, i: nat, j: nat)
    requires k <= |lack|
    ensures OutOfOrder(lack[k..], i, j) <==> OutOfOrder(lack, i + k, j + k)
  {
  }

  lemma OrderOfRest(lack: seq<Row>, limit: int)
    requires limit >= 1 && RoundsInOrder(lack, limit)
    ensures var k := MinInt(limit, |lack|); InOrderAt(lack, k) && RoundsInOrder(lack[k..], limit)
  {
    var k := MinInt(limit, |lack|);
    forall i, j | OutOfOrder(lack[k..], i, j) ensures RoundOf(i, limit) == RoundOf(j, limit) {
      OutOfOrderTail(lack, k, i, j);
      assert RoundOf(i + k, limit) == RoundOf(j + k, limit);
    }
    forall i, j | OutOfOrder(lack, i, j) ensures !(i < k <= j) {
      assert RoundOf(i, limit) == RoundOf(j, limit);
    }
  }

  lemma OrderOfAll(lack: seq<Row>, limit: int)
    requires limit >= 1
    requires var k := MinInt(limit, |lack|); InOrderAt(lack, k) && RoundsInOrder(lack[k..], limit)
    ensures RoundsInOrder(lack, limit)
  {
    var k := MinInt(limit, |lack|);
    forall i, j | OutOfOrder(lack, i, j) ensures RoundOf(i, limit) == RoundOf(j, limit) {
      if i >= k {
        OutOfOrderTail(lack, k, i - k, j - k);
        assert RoundOf(i - k, limit) == RoundOf(j - k, limit);
      }
    }
  }

  /** Order across all round boundaries is order across the first and across those of the rest. */
  lemma RoundsInOrderSplit(lack: seq<Row>, limit: int)
    requires limit >= 1
    ensures var k := MinInt(limit, |lack|);
            RoundsInOrder(lack, limit) <==> InOrderAt(lack, k) && RoundsInOrder(lack[k..], limit)
  {
    if RoundsInOrder(lack, limit) {
      OrderOfRest(lack, limit);
    } else if InOrderAt(lack, MinInt(limit, |lack|)) && RoundsInOrder(lack[MinInt(limit, |lack|)..], limit) {
      OrderOfAll(lack, limit);
    }
  }

  /** Numbers in order within the responder's window are in order across any round boundary. */
  lemma InOrderIsRepairable(req: Table, resp: Table, c: Bytes, cfg: SyncConfig)
    requires TableOk(req) && TableOk(resp) && HoldsPrefixes(req, resp, c) && SeqnoOrder(Timeline(resp.rows, c))
    ensures Repairable(req, resp, c, cfg)
  {
    LackingShape(req, resp, c);
  }

  lemma {:induction false} InChannelConcat(a: seq<Row>, b: seq<Row>, c: Bytes)
    ensures InChannel(a + b, c) == InChannel(a, c) + InChannel(b, c)
  {
    if a == [] {
      assert a + b == b;
    } else {
      InChannelConcat(a[1..], b, c);
      assert (a + b)[1..] == a[1..] + b;
      Assoc(if a[0].content.channel == c then [a[0]] else [], InChannel(a[1..], c), InChannel(b, c));
    }
  }

  lemma PrefixGrowth(before: seq<Row>, after: seq<Row>, c: Bytes)
    requires before <= after
    ensures |InChannel(after, c)| <= |InChannel(before, c)| + (|after| - |before|)
  {
    var added := after[|before|..];
    assert after == before + added;
    InChannelConcat(before, added, c);
  }

  lemma ChannelGrowth(req: Table, c: Bytes, sent: seq<Row>, now: real)
    requires TableOk(req)
    ensures |InChannel(ApplyRows(req, c, sent, now).rows, c)|
         <= |InChannel(req.rows, c)| + (|ApplyRows(req, c, sent, now).rows| - |req.rows|)
  {
    ApplyRowsKeys(req, c, sent, now, Key([], 0));
    PrefixGrowth(req.rows, ApplyRows(req, c, sent, now).rows, c);
  }

  function KeysOf(rows: seq<Row>): (ks: seq<Key>)
    ensures |ks| == |rows| && forall i | 0 <= i < |rows| :: ks[i] == rows[i].key
  {
    seq(|rows|, i requires 0 <= i < |rows| => rows[i].key)
  }

  lemma HasKeyOf(rows: seq<Row>, x: Row)
    requires x in rows
    ensures x.key in KeysOf(rows)
  {
    var i :| 0 <= i < |rows| && rows[i] == x;
    assert KeysOf(rows)[i] == x.key;
  }

  /** A key still lacking after rows were stored was lacking before, and is not stored now. */
  lemma StillLackingKey(req: Table, resp: Table, c: Bytes, after: Table, k: Key)
    requires TableOk(req) && TableOk(resp) && TableOk(after)
    requires req.rows <= after.rows && k in KeysOf(Lacking(after, resp, c))
    ensures k in KeysOf(Lacking(req, resp, c)) && !HasKey(after.rows, k)
  {
    var left := Lacking(after, resp, c);
    LackingShape(req, resp, c);
    LackingShape(after, resp, c);
    var i :| 0 <= i < |left| && KeysOf(left)[i] == k;
    assert left[i] in left;
    HasKeyOf(Lacking(req, resp, c), left[i]);
  }

  /** A key that storing added was lacking before. */
  lemma AddedKey(req: Table, resp: Table, c: Bytes, sent: seq<Row>, now: real, k: Key)
    requires TableOk(req) && forall x | x in sent :: x in Lacking(req, resp, c)
    requires req.rows <= ApplyRows(req, c, sent, now).rows
    requires k in KeysOf(ApplyRows(req, c, sent, now).rows[|req.rows|..])
    ensures k in KeysOf(Lacking(req, resp, c)) && HasKey(ApplyRows(req, c, sent, now).rows, k)
  {
    var after := ApplyRows(req, c, sent, now);
    var n, added := |req.rows|, after.rows[|req.rows|..];
    var i :| 0 <= i < |added| && KeysOf(added)[i] == k;
    assert after.rows[n + i].key == k;
    ApplyRowsKeys(req, c, sent, now, k);
    var j :| 0 <= j < |sent| && sent[j].key == k;
    HasKeyOf(Lacking(req, resp, c), sent[j]);
  }

  lemma JoinNoRepeats<T>(a: seq<T>, b: seq<T>)
    requires NoRepeats(a) && NoRepeats(b) && forall x | x in a :: x !in b
    ensures NoRepeats(a + b)
  {
    var s := a + b;
    forall i, j | 0 <= i < j < |s| ensures s[i] != s[j] {
      if i < |a| <= j {
        assert s[i] == a[i] && s[j] == b[j - |a|] && a[i] in a && b[j - |a|] in b;
      } else if j < |a| {
        assert s[i] == a[i] && s[j] == a[j];
      } else {
        assert s[i] == b[i - |a|] && s[j] == b[j - |a|];
      }
    }
  }

  lemma KeysNoRepeats(t: Table, n: nat)
    requires TableOk(t) && n <= |t.rows|
    ensures NoRepeats(KeysOf(t.rows[n..]))
  {
  }

  lemma TwoPartsFit<T>(a: seq<T>, b: seq<T>, all: seq<T>)
    requires NoRepeats(a) && NoRepeats(b) && (forall x | x in a :: x !in b && x in all)
    requires (forall x | x in b :: x in all)
    ensures |a| + |b| <= |all|
  {
    JoinNoRepeats(a, b);
    DistinctFits(a + b, set x | x in all);
    MembersFit(all);
  }

  /** Every row stored is one less that is lacking. */
  lemma StoredLacksLess(req: Table, resp: Table, c: Bytes, sent: seq<Row>, now: real)
    requires TableOk(req) && TableOk(resp) && forall x | x in sent :: x in Lacking(req, resp, c)
    ensures var after := ApplyRows(req, c, sent, now);
            |Lacking(after, resp, c)| + |after.rows| - |req.rows| <= |Lacking(req, resp, c)|
  {
    var after, lack := ApplyRows(req, c, sent, now), KeysOf(Lacking(req, resp, c));
    ApplyRowsKeys(req, c, sent, now, Key([], 0));
    LackingShape(after, resp, c);
    var left, added := KeysOf(Lacking(after, resp, c)), KeysOf(after.rows[|req.rows|..]);
    forall k | k in added ensures k in lack && HasKey(after.rows, k) {
      AddedKey(req, resp, c, sent, now, k);
    }
    forall k | k in left ensures k in lack && !HasKey(after.rows, k) {
      StillLackingKey(req, resp, c, after, k);
    }
    KeysNoRepeats(after, |req.rows|);
    TwoPartsFit(left, added, lack);
  }

  /** The rows one round sends. */
  function SentInRound(req: Table, resp: Table, c: Bytes, lastN: int, cfg: SyncConfig): (sent: seq<Row>)
    requires lastN > 0
  {
    Answer(resp.rows, cfg, c, Inventory(lastN, MaxSeqnos(LastN(req.rows, c, lastN)))).value
  }

  /** Whatever holes there are, every row a round sends is one the requester lacks. */
  lemma SentIsLacking(req: Table, resp: Table, c: Bytes, lastN: int, cfg: SyncConfig, x: Row)
    requires WindowsCover(req, resp, c, lastN, cfg) && x in SentInRound(req, resp, c, lastN, cfg)
    ensures x in Lacking(req, resp, c)
  {
    var inv, theirs := MaxSeqnos(LastN(req.rows, c, lastN)), Timeline(resp.rows, c);
    FullWindow(resp.rows, c, if lastN > cfg.lastN then cfg.lastN else lastN);
    assert x in Uncovered(theirs, inv);
    UncoveredIsNot(theirs, inv, x);
    TimelineSorted(resp, c);
    LackingShape(req, resp, c);
    if HasKey(req.rows, x.key) {
      HeldIsCovered(req, resp, c, lastN, cfg, x);
    }
  }

  /** A round keeps the windows covering, holes or not. */
  lemma WindowsStayCovering(req: Table, resp: Table, c: Bytes, lastN: int, cfg: SyncConfig, now: real)
    requires WindowsCover(req, resp, c, lastN, cfg)
    ensures WindowsCover(Round(req, resp, c, lastN, cfg, now), resp, c, lastN, cfg)
  {
    var sent := SentInRound(req, resp, c, lastN, cfg);
    LackingShape(req, resp, c);
    forall x | x in sent ensures x in Lacking(req, resp, c) {
      SentIsLacking(req, resp, c, lastN, cfg, x);
    }
    assert Round(req, resp, c, lastN, cfg, now) == ApplyRows(req, c, sent, now);
    StoredLacksLess(req, resp, c, sent, now);
    ChannelGrowth(req, c, sent, now);
    AgreeKept(req, resp, c, sent, now);
  }

  lemma ReadyRoundApplies(req: Table, resp: Table, c: Bytes, lastN: int, cfg: SyncConfig, now: real)
    requires Ready(req, resp, c, lastN, cfg)
    ensures var lack := Lacking(req, resp, c);
            Round(req, resp, c, lastN, cfg, now) == ApplyRows(req, c, lack[..MinInt(Limit(cfg), |lack|)], now)
  {
    var lack := Lacking(req, resp, c);
    RoundSendsLacking(req, resp, c, lastN, cfg, now);
    assert Prefix(lack, Limit(cfg)) == lack[..MinInt(Limit(cfg), |lack|)];
  }

  /** What a round does in a ready state: it stores the oldest min(limit, lacking) rows. */
  lemma ReadyRound(req: Table, resp: Table, c: Bytes, lastN: int, cfg: SyncConfig, now: real)
    requires Ready(req, resp, c, lastN, cfg)
    ensures var lack := Lacking(req, resp, c);
            var k := MinInt(Limit(cfg), |lack|);
            var after := Round(req, resp, c, lastN, cfg, now);
            && after == ApplyRows(req, c, lack[..k], now)
            && Lacking(after, resp, c) == lack[k..]
            && |after.rows| == |req.rows| + k
            && req.rows <= after.rows
  {
    var lack := Lacking(req, resp, c);
    var k := MinInt(Limit(cfg), |lack|);
    ReadyRoundApplies(req, resp, c, lastN, cfg, now);
    LackingShrinks(req, resp, c, k, now);
    StoredCount(req, resp, c, k, now);
    ApplyRowsKeys(req, c, lack[..k], now, Key([], 0));
  }

  lemma HoleStays(req: Table, resp: Table, c: Bytes, lastN: int, cfg: SyncConfig, now: real, hole: Row, above: Row)
    requires WindowsCover(req, resp, c, lastN, cfg) && Hole(req, resp, c, hole, above)
    ensures Hole(Round(req, resp, c, lastN, cfg, now), resp, c, hole, above)
  {
    FullWindow(req.rows, c, lastN);
    TimelineSorted(req, c);
    HoleStaysAfterRound(req, resp, c, lastN, cfg, now, hole, above);
    ApplyRowsKeys(req, c, SentInRound(req, resp, c, lastN, cfg), now, hole.key);
  }

  /** A round neither makes nor mends: a state is repairable after it exactly when it was before. */
  lemma RoundNeverMends(req: Table, resp: Table, c: Bytes, lastN: int, cfg: SyncConfig, now: real)
    requires WindowsCover(req, resp, c, lastN, cfg)
    ensures Repairable(Round(req, resp, c, lastN, cfg, now), resp, c, cfg) <==> Repairable(req, resp, c, cfg)
  {
    if HoldsPrefixes(req, resp, c) {
      var lack := Lacking(req, resp, c);
      ReadyRound(req, resp, c, lastN, cfg, now);
      PrefixesKept(req, resp, c, MinInt(Limit(cfg), |lack|), now);
      RoundsInOrderSplit(lack, Limit(cfg));
    } else {
      var hole, above := FindHole(req, resp, c);
      HoleStays(req, resp, c, lastN, cfg, now, hole, above);
    }
  }

  /** One round from a converging state: it goes on converging, stores exactly min(limit, lacking) rows, and what is
      then lacking is what was lacking without the oldest of it. */
  lemma RoundProgress(req: Table, resp: Table, c: Bytes, lastN: int, cfg: SyncConfig, now: real)
    requires Converging(req, resp, c, lastN, cfg)
    ensures var lack := Lacking(req, resp, c);
            var k := MinInt(Limit(cfg), |lack|);
            var after := Round(req, resp, c, lastN, cfg, now);
            && Converging(after, resp, c, lastN, cfg)
            && Lacking(after, resp, c) == lack[k..]
            && |after.rows| == |req.rows| + k
            && req.rows <= after.rows
  {
    ReadyRound(req, resp, c, lastN, cfg, now);
    RoundNeverMends(req, resp, c, lastN, cfg, now);
    WindowsStayCovering(req, resp, c, lastN, cfg, now);
  }

  /** The requester's table after rounds at the given times. */
  function Rounds(req: Table, resp: Table, c: Bytes, lastN: int, cfg: SyncConfig, times: seq<real>): (t: Table)
    requires TableOk(req)
    ensures TableOk(t)
    decreases |times|
  {
    if times == [] then req
    else Rounds(Round(req, resp, c, lastN, cfg, times[0]), resp, c, lastN, cfg, times[1..])
  }

  /** What is left of m rows after n rounds that carry at most `limit`. */
  function Left(n: nat, limit: nat, m: nat): (k: nat) {
    if n == 0 then m else Left(n - 1, limit, m - MinInt(limit, m))
  }

  lemma {:induction false} LeftIsRest(n: nat, limit: nat, m: nat)
    ensures Left(n, limit, m) == MaxInt(0, m - n * limit)
  {
    if n > 0 {
      LeftIsRest(n - 1, limit, m - MinInt(limit, m));
      assert n * limit == (n - 1) * limit + limit;
      assert (n - 1) * limit >= 0;
    }
  }

  lemma FirstRound(req: Table, resp: Table, c: Bytes, lastN: int, cfg: SyncConfig, times: seq<real>)
    returns (next: Table)
    requires Converging(req, resp, c, lastN, cfg) && times != []
    ensures Converging(next, resp, c, lastN, cfg)
    ensures Left(|times|, Limit(cfg), |Lacking(req, resp, c)|)
         == Left(|times[1..]|, Limit(cfg), |Lacking(next, resp, c)|)
    ensures Rounds(req, resp, c, lastN, cfg, times) == Rounds(next, resp, c, lastN, cfg, times[1..])
  {
    next := Round(req, resp, c, lastN, cfg, times[0]);
    RoundProgress(req, resp, c, lastN, cfg, times[0]);
  }

  lemma {:induction false} RoundsProgress(req: Table, resp: Table, c: Bytes, lastN: int, cfg: SyncConfig,
                                          times: seq<real>)
    requires Converging(req, resp, c, lastN, cfg)
    ensures var after := Rounds(req, resp, c, lastN, cfg, times);
            |Lacking(after, resp, c)| == Left(|times|, Limit(cfg), |Lacking(req, resp, c)|)
    decreases |times|
  {
    if times != [] {
      var next := FirstRound(req, resp, c, lastN, cfg, times);
      RoundsProgress(next, resp, c, lastN, cfg, times[1..]);
    }
  }

  /** Rounds lose nothing, whatever the state. */
  lemma {:induction false} RoundsKeepRows(req: Table, resp: Table, c: Bytes, lastN: int, cfg: SyncConfig,
                                          times: seq<real>)
    requires TableOk(req)
    ensures req.rows <= Rounds(req, resp, c, lastN, cfg, times).rows
    decreases |times|
  {
    if times != [] {
      var next := Round(req, resp, c, lastN, cfg, times[0]);
      if lastN > 0 {
        ApplyRowsKeys(req, c, SentInRound(req, resp, c, lastN, cfg), times[0], Key([], 0));
      }
      RoundsKeepRows(next, resp, c, lastN, cfg, times[1..]);
      PrefixOfPrefix(req.rows, next.rows, Rounds(req, resp, c, lastN, cfg, times).rows);
    }
  }

  lemma {:induction false} WindowsAlwaysCover(req: Table, resp: Table, c: Bytes, lastN: int, cfg: SyncConfig,
                                              times: seq<real>)
    requires WindowsCover(req, resp, c, lastN, cfg)
    ensures WindowsCover(Rounds(req, resp, c, lastN, cfg, times), resp, c, lastN, cfg)
    decreases |times|
  {
    if times != [] {
      WindowsStayCovering(req, resp, c, lastN, cfg, times[0]);
      WindowsAlwaysCover(Round(req, resp, c, lastN, cfg, times[0]), resp, c, lastN, cfg, times[1..]);
    }
  }

  /** Where nothing is lacking, every row of the responder is held and says the same. */
  lemma NothingLackingIsHeld(req: Table, resp: Table, c: Bytes, r: Row)
    requires TableOk(req) && TableOk(resp) && Agree(req, resp) && Lacking(req, resp, c) == []
    requires r in resp.rows && r.content.channel == c
    ensures exists x :: x in req.rows && x.key == r.key && x.content == r.content
  {
    LackingShape(req, resp, c);
    assert r !in Lacking(req, resp, c);
    var i :| 0 <= i < |req.rows| && req.rows[i].key == r.key;
    assert req.rows[i] in req.rows;
  }

  /** Sync convergence. From a converging state, nothing the responder has in the channel is lacking after k rounds
      if and only if k rounds can carry it (k * limit >= lacking, that is k >= ceil(lacking / limit)); the
      requester then holds every such row, saying the same thing, and has lost none of its own. */
  lemma SyncConverges(req: Table, resp: Table, c: Bytes, lastN: int, cfg: SyncConfig, times: seq<real>)
    requires Converging(req, resp, c, lastN, cfg)
    ensures var after := Rounds(req, resp, c, lastN, cfg, times);
            && (Lacking(after, resp, c) == [] <==> |times| * Limit(cfg) >= |Lacking(req, resp, c)|)
            && (|times| * Limit(cfg) >= |Lacking(req, resp, c)| ==>
                  forall r | r in resp.rows && r.content.channel == c ::
                    exists x :: x in after.rows && x.key == r.key && x.content == r.content)
            && req.rows <= after.rows
  {
    var after := Rounds(req, resp, c, lastN, cfg, times);
    RoundsProgress(req, resp, c, lastN, cfg, times);
    RoundsKeepRows(req, resp, c, lastN, cfg, times);
    WindowsAlwaysCover(req, resp, c, lastN, cfg, times);
    LeftIsRest(|times|, Limit(cfg), |Lacking(req, resp, c)|);
    if |times| * Limit(cfg) >= |Lacking(req, resp, c)| {
      forall r | r in resp.rows && r.content.channel == c
        ensures exists x :: x in after.rows && x.key == r.key && x.content == r.content
      {
        NothingLackingIsHeld(after, resp, c, r);
      }
    }
  }

  /** A row the inventory covers is not among those sent. */
  lemma CoveredNotSent(resp: Table, cfg: SyncConfig, c: Bytes, lastN: int, inv: map<Bytes, int>, hole: Row)
    requires TableOk(resp) && hole in resp.rows && Covered(inv, hole) && lastN > 0
    ensures !SomeKey(Answer(resp.rows, cfg, c, Inventory(lastN, inv)).value, hole.key)
  {
    var theirs := LastN(resp.rows, c, if lastN > cfg.lastN then cfg.lastN else lastN);
    var all := Uncovered(theirs, inv);
    var sent := Prefix(all, Limit(cfg));
    TimelineSorted(resp, c);
    if SomeKey(sent, hole.key) {
      var i :| 0 <= i < |sent| && sent[i].key == hole.key;
      var x := all[i];
      UncoveredIsNot(theirs, inv, x);
      SuffixMember(Timeline(resp.rows, c), theirs, x);
      OneRowPerKey(resp, x, hole);
    }
  }

  lemma SuffixMember(all: seq<Row>, w: seq<Row>, x: Row)
    requires |w| <= |all| && w == all[|all| - |w|..] && x in w
    ensures x in all
  {
  }

  /** A hole is never repaired by a last-N round: a row numbered no higher than the requester's own highest
      from that origin, within its window, is not sent, whatever the limits. Range sync is what repairs it. */
  lemma HoleStaysAfterRound(req: Table, resp: Table, c: Bytes, lastN: int, cfg: SyncConfig, now: real, hole: Row,
                            above: Row)
    requires TableOk(req) && TableOk(resp) && hole in resp.rows
    requires above in LastN(req.rows, c, lastN) && above.key.origin == hole.key.origin
    requires hole.key.seqno <= above.key.seqno
    ensures HasKey(Round(req, resp, c, lastN, cfg, now).rows, hole.key) <==> HasKey(req.rows, hole.key)
  {
    var inv := MaxSeqnos(LastN(req.rows, c, lastN));
    MaxSeqnosMeaning(LastN(req.rows, c, lastN));
    assert Covered(inv, above);
    CoveredNotSent(resp, cfg, c, lastN, inv, hole);
    ApplyRowsKeys(req, c, Answer(resp.rows, cfg, c, Inventory(lastN, inv)).value, now, hole.key);
  }

  lemma {:induction false} UncoveredIsNot(rows: seq<Row>, inv: map<Bytes, int>, x: Row)
    requires x in Uncovered(rows, inv)
    ensures !Covered(inv, x)
  {
    if !Covered(inv, rows[0]) && x == rows[0] {
    } else {
      UncoveredIsNot(rows[1..], inv, x);
    }
  }

  lemma EnoughRounds(n: nat, limit: int)
    requires limit >= 1
    ensures n * limit >= n
  {
  }

  lemma RepairedInTime(req: Table, resp: Table, c: Bytes, lastN: int, cfg: SyncConfig) returns (times: seq<real>)
    requires Converging(req, resp, c, lastN, cfg)
    ensures Lacking(Rounds(req, resp, c, lastN, cfg, times), resp, c) == []
  {
    var n := |Lacking(req, resp, c)|;
    times := seq(n, _ => 0.0);
    EnoughRounds(n, Limit(cfg));
    SyncConverges(req, resp, c, lastN, cfg, times);
  }

  lemma {:induction false} RoundsNeverMend(req: Table, resp: Table, c: Bytes, lastN: int, cfg: SyncConfig,
                                           times: seq<real>)
    requires WindowsCover(req, resp, c, lastN, cfg)
    ensures Repairable(Rounds(req, resp, c, lastN, cfg, times), resp, c, cfg) <==> Repairable(req, resp, c, cfg)
    decreases |times|
  {
    if times != [] {
      WindowsStayCovering(req, resp, c, lastN, cfg, times[0]);
      RoundNeverMends(req, resp, c, lastN, cfg, times[0]);
      RoundsNeverMend(Round(req, resp, c, lastN, cfg, times[0]), resp, c, lastN, cfg, times[1..]);
    }
  }

  /** Where nothing is lacking there is nothing to repair. */
  lemma NothingLacking(req: Table, resp: Table, c: Bytes, cfg: SyncConfig)
    requires TableOk(req) && TableOk(resp) && Lacking(req, resp, c) == []
    ensures Repairable(req, resp, c, cfg)
  {
    LackingShape(req, resp, c);
    forall r | r in resp.rows && r.content.channel == c ensures HasKey(req.rows, r.key) {
      assert r !in Lacking(req, resp, c);
    }
  }

  /** Exactly when last-N sync repairs what is missing, the windows covering the channel: some number of rounds
      leaves nothing lacking iff the requester has no hole below its own highest number of an origin, and no two
      lacking rows of an origin are out of number order across a round boundary. */
  lemma SyncRepairsExactlyWhen(req: Table, resp: Table, c: Bytes, lastN: int, cfg: SyncConfig)
    requires WindowsCover(req, resp, c, lastN, cfg)
    ensures (exists times :: Lacking(Rounds(req, resp, c, lastN, cfg, times), resp, c) == [])
       <==> HoldsPrefixes(req, resp, c) && RoundsInOrder(Lacking(req, resp, c), Limit(cfg))
  {
    if Repairable(req, resp, c, cfg) {
      var times := RepairedInTime(req, resp, c, lastN, cfg);
    } else {
      forall times ensures Lacking(Rounds(req, resp, c, lastN, cfg, times), resp, c) != [] {
        RoundsNeverMend(req, resp, c, lastN, cfg, times);
        if Lacking(Rounds(req, resp, c, lastN, cfg, times), resp, c) == [] {
          NothingLacking(Rounds(req, resp, c, lastN, cfg, times), resp, c, cfg);
        }
      }
    }
  }

  /** A responder that heard messages 2 and 1 of an origin in this order, both of one second. */
  function Swapped(c: Bytes, o: Bytes, ts: int): (t: Table) {
    Table([Row(1, Key(o, 2), Content(c, [], [], ts), 0.0), Row(2, Key(o, 1), Content(c, [], [], ts), 0.0)], 3)
  }

  lemma SwappedOk(c: Bytes, o: Bytes, ts: int)
    ensures var rows := Swapped(c, o, ts).rows;
            TableOk(Swapped(c, o, ts)) && Sorted(ByTime, rows) && forall x | x in rows :: x.content.channel == c
  {
  }

  lemma SwappedTimeline(c: Bytes, o: Bytes, ts: int)
    ensures Timeline(Swapped(c, o, ts).rows, c) == Swapped(c, o, ts).rows
    ensures Lacking(EMPTY_TABLE, Swapped(c, o, ts), c) == Swapped(c, o, ts).rows
  {
    var t := Swapped(c, o, ts);
    SwappedOk(c, o, ts);
    TimelineSorted(t, c);
    SortedUnique(ByTime, Timeline(t.rows, c), t.rows);
    AbsentExtremes(t.rows, []);
  }

  /** An empty store is never filled from it one row at a time, although it has no hole: the first response brings
      number 2, and number 1 counts as held from then on. */
  lemma SwappedNeverRepaired(c: Bytes, o: Bytes, ts: int, times: seq<real>)
    ensures var resp, cfg := Swapped(c, o, ts), SyncConfig(2, 1);
            && WindowsCover(EMPTY_TABLE, resp, c, 2, cfg) && HoldsPrefixes(EMPTY_TABLE, resp, c)
            && Lacking(Rounds(EMPTY_TABLE, resp, c, 2, cfg, times), resp, c) != []
  {
    var resp, cfg := Swapped(c, o, ts), SyncConfig(2, 1);
    SwappedOk(c, o, ts);
    SwappedTimeline(c, o, ts);
    SyncRepairsExactlyWhen(EMPTY_TABLE, resp, c, 2, cfg);
    var lack := Lacking(EMPTY_TABLE, resp, c);
    assert OutOfOrder(lack, 0, 1) && RoundOf(0, Limit(cfg)) != RoundOf(1, Limit(cfg));
  }

  // ------------------------------------------------------- the handlers

  class ChatClient {
    const store: Store
    const cfg: SyncConfig

    constructor (cfg: SyncConfig)
      ensures this.cfg == cfg && fresh(store) && store.State() == EMPTY_TABLE
    {
      this.cfg := cfg;
      store := new Store();
    }

    /** `request_sync_last_n`; None where nothing is sent. */
    method RequestLastN(c: Bytes, lastN: int) returns (q: Option<SyncRequest>)
      ensures q == if lastN <= 0 then None else Some(Inventory(lastN, MaxSeqnos(LastN(store.rows, c, lastN))))
    {
      if lastN <= 0 {
        return None;
      }
      var rows := LastN(store.rows, c, lastN);
      var inv: map<Bytes, int> := map[];
      for i := 0 to |rows|
        invariant inv == MaxSeqnos(rows[..i])
      {
        var k := rows[i].key;
        assert rows[..i + 1][..i] == rows[..i];
        if k.origin !in inv || k.seqno > inv[k.origin] {
          inv := inv[k.origin := k.seqno];
        }
      }
      assert rows[..|rows|] == rows;
      q := Some(Inventory(lastN, inv));
    }

    /** `request_sync_range`; None where nothing is sent. */
    method RequestRange(origin: Bytes, start: int, end: int) returns (q: Option<SyncRequest>)
      ensures q.None? <==> start < 0 || end < 0
      ensures q.Some? ==> q.value.SeqRange? && q.value.origin == origin && 0 <= q.value.start <= q.value.end
                          && {q.value.start, q.value.end} == {start, end}
    {
      var s, e := start, end;
      if s > e {
        s, e := e, s;
      }
      if s < 0 || e < 0 {
        return None;
      }
      q := Some(SeqRange(origin, s, e));
    }

    /** `_handle_sync_request`; None where nothing is answered. */
    method HandleRequest(c: Bytes, q: SyncRequest) returns (sent: Option<seq<Row>>)
      ensures sent == Answer(store.rows, cfg, c, q)
    {
      var maxSend := cfg.maxSend;
      if maxSend <= 0 {
        maxSend := 1;
      }
      match q
      case Since(ts) => sent := Some(SinceTs(store.rows, c, ts, maxSend));
      case SeqRange(origin, s, e) => sent := Some(InSeqRange(store.rows, c, origin, s, e, maxSend));
      case Inventory(lastN, inv) =>
        if lastN <= 0 {
          return None;
        }
        var n := lastN;
        if n > cfg.lastN {
          n := cfg.lastN;
        }
        var out := CollectUncovered(LastN(store.rows, c, n), inv, maxSend);
        sent := Some(out);
    }

    static method CollectUncovered(window: seq<Row>, inv: map<Bytes, int>, maxSend: int) returns (out: seq<Row>)
      requires maxSend >= 1
      ensures out == Prefix(Uncovered(window, inv), maxSend)
    {
      out := [];
      var rest := window;
      ghost var all := Prefix(Uncovered(window, inv), maxSend);
      while rest != []
        invariant |out| <= maxSend && out + Prefix(Uncovered(rest, inv), maxSend - |out|) == all
        decreases |rest|
      {
        if |out| >= maxSend {
          assert out + [] == out;
          return;
        }
        var r := rest[0];
        CollectStep(out, rest, inv, maxSend - |out|);
        rest := rest[1..];
        if Covered(inv, r) {
          continue;
        }
        out := out + [r];
      }
      assert out + [] == out;
    }

    /** `_handle_sync_response`; `applied` counts the rows it added, and the applied callback runs only when the
        response was `completed` and added some. */
    method HandleResponse(c: Bytes, items: seq<Item>, now: real) returns (applied: int, completed: bool)
      requires TableOk(store.State())
      modifies store
      ensures store.State() == Apply(old(store.State()), c, items, now)
      ensures applied == |store.rows| - |old(store.rows)|
      ensures completed <==> Unconvertible !in items
    {
      applied := 0;
      var rest := items;
      while rest != []
        invariant TableOk(store.State())
        invariant Apply(store.State(), c, rest, now) == Apply(old(store.State()), c, items, now)
        invariant applied == |store.rows| - |old(store.rows)|
        invariant Unconvertible in items <==> Unconvertible in rest
        decreases |rest|
      {
        var head := rest[0];
        if head.Unconvertible? {
          return applied, false;
        }
        rest := rest[1..];
        if head.Malformed? {
          continue;
        }
        var record := head.record;
        var held := store.HasMessage(RecordKey(record));
        if held {
          continue;
        }
        var inserted := store.AddMessage(RecordKey(record), RecordContent(record, c), now);
        applied := applied + 1;
      }
      completed := true;
    }
  }

  lemma CollectStep(out: seq<Row>, rest: seq<Row>, inv: map<Bytes, int>, room: int)
    requires rest != [] && room >= 1
    ensures out + Prefix(Uncovered(rest, inv), room)
         == if Covered(inv, rest[0]) then out + Prefix(Uncovered(rest[1..], inv), room)
            else (out + [rest[0]]) + Prefix(Uncovered(rest[1..], inv), room - 1)
  {
    UncoveredCons(rest, inv);
    PrefixCons(rest[0], Uncovered(rest[1..], inv), room);
    Assoc(out, [rest[0]], Prefix(Uncovered(rest[1..], inv), room - 1));
  }

  lemma UncoveredCons(rows: seq<Row>, inv: map<Bytes, int>)
    requires rows != []
    ensures Uncovered(rows, inv)
         == if Covered(inv, rows[0]) then Uncovered(rows[1..], inv) else [rows[0]] + Uncovered(rows[1..], inv)
  {
    assert [] + Uncovered(rows[1..], inv) == Uncovered(rows[1..], inv);
  }

  lemma PrefixCons(r: Row, rest: seq<Row>, n: int)
    requires n >= 1
    ensures Prefix([r] + rest, n) == [r] + Prefix(rest, n - 1)
  {
  }
}
