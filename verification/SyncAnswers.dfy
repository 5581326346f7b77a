/** What travels in one sync exchange (chat_client.py:941-1114): which rows answer each kind of request, and what the
    requester stores of a response, malformed elements included. */
module SyncAnswers {
  import opened Basics
  import opened Bytes
  import opened ChatProtocol
  import opened ChatStore
  import opened ChatSync

  // ------------------------------------------------------- what is sent

  /** The first `limit` of the wanted rows, in time order. */
  ghost predicate OldestOf(wanted: iset<Row>, limit: nat, sent: seq<Row>) {
    && InTimeOrder(sent) && |sent| <= limit && (forall x | x in sent :: x in wanted)
    && forall y | y in wanted && y !in sent :: |sent| == limit && forall x | x in sent :: Earlier(x, y)
  }

  lemma PrefixIsOldest(all: seq<Row>, limit: nat)
    requires Sorted(ByTime, all) && limit >= 1
    ensures OldestOf((iset x | x in all), limit, Prefix(all, limit))
  {
    var sent := Prefix(all, limit);
    SortedByTime(all);
    forall y | y in all && y !in sent ensures |sent| == limit && forall x | x in sent :: Earlier(x, y) {
      var j :| 0 <= j < |all| && all[j] == y;
      InPrefixOrAfter(all, limit, j);
    }
  }

  lemma {:induction false} NewerStaysDistinct(rows: seq<Row>, c: Bytes, since: int)
    requires IdsDistinct(rows) && KeysDistinct(rows)
    ensures IdsDistinct(NewerThan(rows, c, since)) && KeysDistinct(NewerThan(rows, c, since))
  {
    if rows != [] {
      NewerStaysDistinct(rows[1..], c, since);
      assert rows == [rows[0]] + rows[1..];
      ConsDistinct(rows[0], rows[1..], NewerThan(rows[1..], c, since));
      assert [] + NewerThan(rows[1..], c, since) == NewerThan(rows[1..], c, since);
    }
  }

  /** A "since" request: the oldest of the channel's rows after the time, at most the larger of 1 and the setting. */
  lemma SinceAnswer(t: Table, cfg: SyncConfig, c: Bytes, since: int)
    requires TableOk(t)
    ensures Answer(t.rows, cfg, c, Since(since)).Some?
    ensures OldestOf((iset x | x in t.rows && x.content.channel == c && x.content.createdTs > since),
                     if cfg.maxSend > 1 then cfg.maxSend else 1, Answer(t.rows, cfg, c, Since(since)).value)
  {
    var newer := NewerThan(t.rows, c, since);
    NewerStaysDistinct(t.rows, c, since);
    SortBySorts(ByTime, newer);
    SameMembers(SortBy(ByTime, newer), newer);
    PrefixIsOldest(SortBy(ByTime, newer), Limit(cfg));
    assert (iset x | x in SortBy(ByTime, newer))
        == iset x | x in t.rows && x.content.channel == c && x.content.createdTs > since;
  }

  lemma {:induction false} UncoveredMembers(rows: seq<Row>, inv: map<Bytes, int>, x: Row)
    ensures x in Uncovered(rows, inv) <==> x in rows && !Covered(inv, x)
  {
    if rows != [] {
      UncoveredMembers(rows[1..], inv, x);
      UncoveredCons(rows, inv);
    }
  }

  lemma {:induction false} UncoveredSorted(rows: seq<Row>, inv: map<Bytes, int>)
    requires Sorted(ByTime, rows)
    ensures Sorted(ByTime, Uncovered(rows, inv))
  {
    if rows != [] {
      UncoveredSorted(rows[1..], inv);
      UncoveredCons(rows, inv);
      forall x | x in Uncovered(rows[1..], inv) ensures Before(ByTime, rows[0], x) {
        var j :| 0 <= j < |rows[1..]| && rows[1..][j] == x;
      }
    }
  }

  /** The rows of a window that the inventory does not cover. */
  ghost function NotCovered(w: seq<Row>, inv: map<Bytes, int>): (s: iset<Row>) {
    iset x | x in w && (x.key.origin in inv ==> x.key.seqno > inv[x.key.origin])
  }

  lemma UncoveredIsOldest(w: seq<Row>, inv: map<Bytes, int>, limit: nat)
    requires InTimeOrder(w) && limit >= 1
    ensures OldestOf(NotCovered(w, inv), limit, Prefix(Uncovered(w, inv), limit))
  {
    var all := Uncovered(w, inv);
    SortedByTime(w);
    UncoveredSorted(w, inv);
    PrefixIsOldest(all, limit);
    forall x ensures x in all <==> x in NotCovered(w, inv) {
      UncoveredMembers(w, inv, x);
    }
    assert (iset x | x in all) == NotCovered(w, inv);
  }

  lemma InventoryIs(rows: seq<Row>, cfg: SyncConfig, c: Bytes, lastN: int, inv: map<Bytes, int>)
    ensures var n := if lastN < cfg.lastN then lastN else cfg.lastN;
            Answer(rows, cfg, c, Inventory(lastN, inv))
            == if lastN <= 0 then None else Some(Prefix(Uncovered(LastN(rows, c, n), inv), Limit(cfg)))
  {
  }

  /** A last-N request: nothing for a window that is not positive. Otherwise the oldest rows the inventory does not
      cover, in the channel's newest rows, as many as asked for but no more than the responder's own setting. */
  lemma InventoryAnswer(t: Table, cfg: SyncConfig, c: Bytes, lastN: int, inv: map<Bytes, int>) returns (w: seq<Row>)
    requires TableOk(t)
    ensures IsWindow(t.rows, c, if lastN < cfg.lastN then lastN else cfg.lastN, w)
    ensures Answer(t.rows, cfg, c, Inventory(lastN, inv)).Some? <==> lastN > 0
    ensures lastN > 0 ==> OldestOf(NotCovered(w, inv), if cfg.maxSend > 1 then cfg.maxSend else 1,
                                   Answer(t.rows, cfg, c, Inventory(lastN, inv)).value)
  {
    var n := if lastN < cfg.lastN then lastN else cfg.lastN;
    w := LastN(t.rows, c, n);
    LastNIsWindow(t, c, n);
    InventoryIs(t.rows, cfg, c, lastN, inv);
    UncoveredIsOldest(w, inv, Limit(cfg));
  }

  // ----------------------------------------------------- what is stored

  /** Element i is a well-formed record with this key, and no earlier element has it or makes the handler raise. */
  predicate FirstRecord(items: seq<Item>, k: Key, i: int) {
    && 0 <= i < |items| && items[i].Good? && k == Key(items[i].record.origin, items[i].record.seqno)
    && forall j | 0 <= j < i :: !items[j].Unconvertible?
                                && (items[j].Good? ==> k != Key(items[j].record.origin, items[j].record.seqno))
  }

  lemma FirstRecordCons(items: seq<Item>, k: Key, i: int)
    requires items != [] && !items[0].Unconvertible? && i >= 1
    requires items[0].Good? ==> k != Key(items[0].record.origin, items[0].record.seqno)
    ensures FirstRecord(items, k, i) <==> FirstRecord(items[1..], k, i - 1)
  {
    if FirstRecord(items[1..], k, i - 1) {
      forall j | 0 <= j < i ensures !items[j].Unconvertible?
        && (items[j].Good? ==> k != Key(items[j].record.origin, items[j].record.seqno)) {
        assert j > 0 ==> items[j] == items[1..][j - 1];
      }
    }
  }

  /** What one row of the table after a response says: it was there, or its key was not held and the first record with
      that key, in the part of the response that is read, says it. It is stamped with the time of storing. */
  ghost predicate Explained(before: Table, c: Bytes, items: seq<Item>, now: real, x: Row) {
    || x in before.rows
    || (&& !HasKey(before.rows, x.key)
        && exists i :: FirstRecord(items, x.key, i) && x.ts == now
                       && x.content == Content(c, items[i].record.nick, items[i].record.text, items[i].record.ts))
  }

  /** The row at the head of what is added. */
  lemma AddExplained(t: Table, c: Bytes, items: seq<Item>, now: real, x: Row)
    requires TableOk(t) && items != [] && items[0].Good?
    requires var r := items[0].record; x in Add(t, RecordKey(r), RecordContent(r, c), now).rows
    ensures Explained(t, c, items, now, x)
  {
    var r := items[0].record;
    if x !in t.rows {
      assert FirstRecord(items, RecordKey(r), 0);
    }
  }

  lemma LaterExplained(t: Table, t1: Table, c: Bytes, items: seq<Item>, now: real, x: Row)
    requires items != [] && !items[0].Unconvertible? && x !in t1.rows
    requires forall q :: HasKey(t1.rows, q)
                         <==> HasKey(t.rows, q) || (items[0].Good? && q == RecordKey(items[0].record))
    requires Explained(t1, c, items[1..], now, x)
    ensures Explained(t, c, items, now, x)
  {
    var i :| FirstRecord(items[1..], x.key, i) && x.ts == now
             && x.content == Content(c, items[1..][i].record.nick, items[1..][i].record.text, items[1..][i].record.ts);
    FirstRecordCons(items, x.key, i + 1);
    assert items[i + 1] == items[1..][i];
  }

  lemma KeysAfterAdd(t: Table, k: Key, content: Content, now: real)
    requires TableOk(t)
    ensures forall q :: HasKey(Add(t, k, content, now).rows, q) <==> HasKey(t.rows, q) || q == k
    ensures t.rows <= Add(t, k, content, now).rows
  {
    forall q ensures HasKey(Add(t, k, content, now).rows, q) <==> HasKey(t.rows, q) || q == k {
      AddKeys(t, k, content, now, q);
    }
  }

  lemma HasKeyLater(rows: seq<Row>, more: seq<Row>, k: Key)
    requires rows <= more && HasKey(rows, k)
    ensures HasKey(more, k)
  {
    var i :| 0 <= i < |rows| && rows[i].key == k;
    assert more[i] == rows[i];
  }

  /** Everything stored is explained by the response, nothing held is lost, and every record that can be read is
      held. */
  lemma {:induction false} AppliedExactly(t: Table, c: Bytes, items: seq<Item>, now: real)
    requires TableOk(t)
    ensures var after := Apply(t, c, items, now);
            && t.rows <= after.rows
            && (forall x | x in after.rows :: Explained(t, c, items, now, x))
            && (forall k, i | FirstRecord(items, k, i) :: HasKey(after.rows, k))
    decreases |items|
  {
    if items != [] && !items[0].Unconvertible? {
      var after, head, t1 := Apply(t, c, items, now), items[0], t;
      if head.Good? {
        t1 := Add(t, RecordKey(head.record), RecordContent(head.record, c), now);
        KeysAfterAdd(t, RecordKey(head.record), RecordContent(head.record, c), now);
      }
      AppliedExactly(t1, c, items[1..], now);
      PrefixOfPrefix(t.rows, t1.rows, after.rows);
      forall x | x in after.rows ensures Explained(t, c, items, now, x) {
        if x !in t1.rows {
          LaterExplained(t, t1, c, items, now, x);
        } else if head.Good? {
          AddExplained(t, c, items, now, x);
        }
      }
      forall k, i | FirstRecord(items, k, i) ensures HasKey(after.rows, k) {
        if i == 0 {
          HasKeyLater(t1.rows, after.rows, k);
        } else {
          FirstRecordCons(items, k, i);
        }
      }
    }
  }
}
