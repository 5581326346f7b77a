/** Gap report lines: how `_maybe_report` prints them (chat_client.py:415-429) and how `_on_gap_report`
    reads them back (mesh_backend.py:775-834). */
module GapText {
  import opened Basics
  import opened Bytes

  datatype Range = Range(start: int, end: int)

  const DASH: char := '\U{2013}'
  const MARKER: string := " missing seq "
  const CONFIRMED: string := " (confirmed)"
  const SUSPECTED: string := " (suspected)"

  // ---------------------------------------------------------- printing

  function Digit(d: int): char
    requires 0 <= d < 10
  {
    "0123456789"[d]
  }

  predicate IsDigit(c: char) { '0' <= c <= '9' }

  function Dec(n: nat): (s: string)
    ensures s != [] && forall c | c in s :: IsDigit(c)
  {
    if n < 10 then [Digit(n)] else Dec(n / 10) + [Digit(n % 10)]
  }

  function ShowRange(r: Range): (s: string)
    requires 0 <= r.start && 0 <= r.end
  {
    if r.start == r.end then Dec(r.start) else Dec(r.start) + [DASH] + Dec(r.end)
  }

  predicate Printable(rs: seq<Range>) {
    forall r | r in rs :: 0 <= r.start <= r.end
  }

  /** The ranges joined with ", ". */
  function ShowRanges(rs: seq<Range>): (s: string)
    requires Printable(rs)
  {
    if rs == [] then "" else if |rs| == 1 then ShowRange(rs[0])
    else ShowRange(rs[0]) + ", " + ShowRanges(rs[1..])
  }

  function ShowLine(tag: string, rs: seq<Range>, confirmed: bool): (s: string)
    requires Printable(rs)
  {
    tag + MARKER + ShowRanges(rs) + (if confirmed then CONFIRMED else SUSPECTED)
  }

  function DropTrailingZeros(b: Bytes): (r: Bytes)
    ensures |r| <= |b|
  {
    if b != [] && b[|b| - 1] == 0 then DropTrailingZeros(b[..|b| - 1]) else b
  }

  function Ascii(b: Bytes): (s: string)
    ensures |s| <= |b|
  {
    if b == [] then "" else (if b[0] < 128 then [b[0] as char] else "") + Ascii(b[1..])
  }

  function Hex(b: Bytes): (s: string)
    ensures forall c | c in s :: IsDigit(c) || 'a' <= c <= 'f'
    ensures |s| == 2 * |b|
  {
    if b == [] then "" else ["0123456789abcdef"[b[0] / 16], "0123456789abcdef"[b[0] % 16]] + Hex(b[1..])
  }

  /** `_origin_label`: the callsign in the node id, or its hex form when there is none. */
  function Label(origin: Bytes): (s: string) {
    var callsign := Ascii(DropTrailingZeros(origin));
    if callsign != "" then callsign else Hex(origin)
  }

  // ----------------------------------------------------------- reading

  predicate IsSpace(c: char) { c == ' ' || '\t' <= c <= '\r' || '\U{1c}' <= c <= '\U{1f}' }

  function StripLeft(s: string): (r: string)
    ensures |r| <= |s|
  {
    if s != [] && IsSpace(s[0]) then StripLeft(s[1..]) else s
  }

  function StripRight(s: string): (r: string)
    ensures |r| <= |s|
  {
    if s != [] && IsSpace(s[|s| - 1]) then StripRight(s[..|s| - 1]) else s
  }

  function Strip(s: string): (r: string) { StripRight(StripLeft(s)) }

  predicate MatchAt(text: string, pat: string, i: int) {
    0 <= i && i + |pat| <= |text| && text[i..i + |pat|] == pat
  }

  /** `text.find(pat, from)`. */
  function Find(text: string, pat: string, from: nat): (i: int)
    ensures i >= 0 ==> from <= i && MatchAt(text, pat, i) && forall j | from <= j < i :: !MatchAt(text, pat, j)
    ensures i < 0 ==> i == -1 && forall j | from <= j :: !MatchAt(text, pat, j)
    decreases |text| - from
  {
    if from + |pat| > |text| then -1
    else if text[from..from + |pat|] == pat then from
    else Find(text, pat, from + 1)
  }

  function SplitAt(s: string, c: char): (p: (string, string))
    requires c in s
    ensures s == p.0 + [c] + p.1 && c !in p.0
  {
    if s[0] == c then ("", s[1..]) else
    var (a, b) := SplitAt(s[1..], c);
    ([s[0]] + a, b)
  }

  function Split(s: string, c: char): (r: seq<string>)
    ensures r != []
    decreases |s|
  {
    if c !in s then [s] else
    var (a, b) := SplitAt(s, c);
    [a] + Split(b, c)
  }

  /** `int(s)` on stripped text; None is ValueError. */
  function ParseNat(s: string): (r: Option<nat>) {
    if s == [] || !IsDigit(s[|s| - 1]) then None
    else if |s| == 1 then Some((s[0] - '0') as int)
    else match ParseNat(s[..|s| - 1])
      case None => None
      case Some(n) => Some(10 * n + (s[|s| - 1] - '0') as int)
  }

  function Signed(n: Option<nat>, sign: int): (r: Option<int>) {
    if n.None? then None else Some(sign * n.value)
  }

  function ParseInt(s: string): (r: Option<int>) {
    if s != [] && s[0] == '-' then Signed(ParseNat(s[1..]), -1)
    else Signed(ParseNat(if s != [] && s[0] == '+' then s[1..] else s), 1)
  }

  function ParseItem(part: string): (r: Option<Range>)
    ensures r.Some? ==> 0 <= r.value.start <= r.value.end
  {
    var (a, b) := if DASH in part then SplitAt(part, DASH)
                  else if '-' in part then SplitAt(part, '-') else (part, part);
    match (ParseInt(Strip(a)), ParseInt(Strip(b)))
    case (Some(s), Some(e)) => if s < 0 || e < 0 then None else Some(if e < s then Range(e, s) else Range(s, e))
    case _ => None
  }

  function ParseItems(items: seq<string>): (r: seq<Range>)
    ensures forall x | x in r :: 0 <= x.start <= x.end
  {
    if items == [] then [] else
    var part := Strip(items[0]);
    var rest := ParseItems(items[1..]);
    if part == "" then rest else
    match ParseItem(part) case None => rest case Some(x) => [x] + rest
  }

  /** The range list at the front of what follows the marker. */
  function ListText(tail: string): (s: string) {
    var paren := Find(tail, " (", 0);
    Strip(if paren >= 0 then tail[..paren] else tail)
  }

  datatype Report = Report(callsign: string, ranges: seq<Range>)

  /** What a line asks for: None where the handler returns before looking at any range. */
  function ParseLine(text: string): (r: Option<Report>)
    ensures r.Some? ==> r.value.ranges != [] && forall x | x in r.value.ranges :: 0 <= x.start <= x.end
  {
    if Find(text, CONFIRMED, 0) < 0 then None else
    var idx := Find(text, MARKER, 0);
    if idx <= 0 then None else ParseParts(text[..idx], text[idx + |MARKER|..])
  }

  /** The text before the marker, and the text after it. */
  function ParseParts(head: string, tail: string): (r: Option<Report>)
    ensures r.Some? ==> r.value.ranges != [] && forall x | x in r.value.ranges :: 0 <= x.start <= x.end
  {
    var body := ListText(tail);
    if Strip(head) == "" || body == "" then None else
    var ranges := ParseItems(Split(body, ','));
    if ranges == [] then None else Some(Report(Strip(head), ranges))
  }

  // -------------------------------------------------- reading numbers

  lemma DigitValue(d: int)
    requires 0 <= d < 10
    ensures IsDigit(Digit(d)) && (Digit(d) - '0') as int == d
  {
  }

  lemma ParseNatSnoc(front: string, c: char, n: nat)
    requires front != "" && IsDigit(c) && ParseNat(front) == Some(n)
    ensures ParseNat(front + [c]) == Some(10 * n + (c - '0') as int)
  {
    assert (front + [c])[..|front|] == front;
  }

  lemma {:induction false} ParseDec(n: nat)
    ensures ParseNat(Dec(n)) == Some(n)
  {
    DigitValue(n % 10);
    if n >= 10 {
      ParseDec(n / 10);
      ParseNatSnoc(Dec(n / 10), Digit(n % 10), n / 10);
    }
  }

  lemma StripSolid(s: string)
    requires s != [] ==> !IsSpace(s[0]) && !IsSpace(s[|s| - 1])
    ensures Strip(s) == s && (s != [] ==> Strip(" " + s) == s)
  {
    assert (" " + s)[1..] == s;
  }

  predicate Inner(c: char) { IsDigit(c) || c == DASH }

  lemma ShowRangeShape(r: Range)
    requires 0 <= r.start && 0 <= r.end
    ensures var s := ShowRange(r); s != [] && IsDigit(s[0]) && IsDigit(s[|s| - 1]) && forall c | c in s :: Inner(c)
  {
    var a, b := Dec(r.start), Dec(r.end);
    assert a[0] in a && a[|a| - 1] in a && b[|b| - 1] in b;
  }

  lemma {:induction false} SplitAtFirst(a: string, c: char, b: string)
    requires c !in a
    ensures SplitAt(a + [c] + b, c) == (a, b)
  {
    var s := a + [c] + b;
    if a == [] {
      assert s[1..] == b;
    } else {
      SplitAtFirst(a[1..], c, b);
      assert s[0] == a[0] && a[0] in a;
      assert s[1..] == a[1..] + [c] + b && s[1..][|a| - 1] == c;
      assert [a[0]] + a[1..] == a;
    }
  }

  lemma ParseDigits(n: nat)
    ensures ParseInt(Strip(Dec(n))) == Some(n)
  {
    var s := Dec(n);
    assert s[0] in s && s[|s| - 1] in s;
    StripSolid(s);
    ParseDec(n);
  }

  lemma ParseShownRange(r: Range)
    requires 0 <= r.start <= r.end
    ensures ParseItem(ShowRange(r)) == Some(r)
  {
    var a, b := Dec(r.start), Dec(r.end);
    ParseDigits(r.start);
    ParseDigits(r.end);
    if r.start != r.end {
      SplitAtFirst(a, DASH, b);
      assert DASH in ShowRange(r);
    }
  }

  // ---------------------------------------------------- reading a list

  /** The shape of a rendered list: digits at both ends, and only digits, dashes, commas and spaces. */
  lemma {:induction false} ShowRangesShape(rs: seq<Range>)
    requires Printable(rs) && rs != []
    ensures var s := ShowRanges(rs);
            && s != [] && IsDigit(s[0]) && IsDigit(s[|s| - 1])
            && forall c | c in s :: Inner(c) || c == ',' || c == ' '
  {
    ShowRangeShape(rs[0]);
    if |rs| > 1 {
      ShowRangesShape(rs[1..]);
    }
  }

  lemma SplitOnComma(head: string, tail: string)
    requires ',' !in head
    ensures Split(head + "," + tail, ',') == [head] + Split(tail, ',')
    ensures Split(head, ',') == [head]
  {
    SplitAtFirst(head, ',', tail);
    assert ',' in head + "," + tail;
  }

  lemma ParseItemsCons(item: string, rest: seq<string>, r: Range)
    requires 0 <= r.start <= r.end && (item == ShowRange(r) || item == " " + ShowRange(r))
    ensures ParseItems([item] + rest) == [r] + ParseItems(rest)
  {
    ShowRangeShape(r);
    StripSolid(ShowRange(r));
    ParseShownRange(r);
    assert ([item] + rest)[1..] == rest;
  }

  lemma Regroup(a: string, b: string, c: string)
    ensures a + (b + ", " + c) == (a + b) + "," + (" " + c)
  {
    var l, r := a + (b + ", " + c), (a + b) + "," + (" " + c);
    assert |l| == |r| && forall i | 0 <= i < |l| :: l[i] == r[i];
  }

  lemma ParseOneItem(r: Range, lead: string)
    requires 0 <= r.start <= r.end && (lead == "" || lead == " ")
    ensures ParseItems(Split(lead + ShowRange(r), ',')) == [r]
    ensures ',' !in lead + ShowRange(r)
    ensures (lead + ShowRange(r) == ShowRange(r) || lead + ShowRange(r) == " " + ShowRange(r))
  {
    var item := lead + ShowRange(r);
    ShowRangeShape(r);
    assert lead == "" ==> item == ShowRange(r);
    SplitOnComma(item, "");
    ParseItemsCons(item, [], r);
    assert [item] + [] == [item];
  }

  lemma ParseItemThenMore(r: Range, lead: string, tail: string, rest: seq<Range>)
    requires 0 <= r.start <= r.end && (lead == "" || lead == " ") && ParseItems(Split(tail, ',')) == rest
    ensures ParseItems(Split((lead + ShowRange(r)) + "," + tail, ',')) == [r] + rest
  {
    ParseOneItem(r, lead);
    SplitOnComma(lead + ShowRange(r), tail);
    ParseItemsCons(lead + ShowRange(r), Split(tail, ','), r);
  }

  lemma ShowRangesSplit(rs: seq<Range>, lead: string)
    requires Printable(rs) && |rs| > 1
    ensures lead + ShowRanges(rs) == (lead + ShowRange(rs[0])) + "," + (" " + ShowRanges(rs[1..]))
  {
    Regroup(lead, ShowRange(rs[0]), ShowRanges(rs[1..]));
  }

  lemma ConsRange(rs: seq<Range>)
    requires rs != []
    ensures [rs[0]] + rs[1..] == rs
  {
  }

  /** `lead` is the space after the previous comma, or nothing. */
  lemma {:induction false} ParseShownRanges(rs: seq<Range>, lead: string)
    requires Printable(rs) && rs != [] && (lead == "" || lead == " ")
    ensures ParseItems(Split(lead + ShowRanges(rs), ',')) == rs
  {
    ConsRange(rs);
    if |rs| == 1 {
      ParseOneItem(rs[0], lead);
    } else {
      ParseShownRanges(rs[1..], " ");
      ParseItemThenMore(rs[0], lead, " " + ShowRanges(rs[1..]), rs[1..]);
      ShowRangesSplit(rs, lead);
    }
  }

  // ---------------------------------------------------- reading a line

  /** Labels are at most eight characters, or contain neither a space nor a bracket (the hex form). */
  predicate GoodLabel(tag: string) {
    tag != "" && (|tag| <= 8 || (' ' !in tag && '(' !in tag))
  }

  lemma LabelIsGood(origin: Bytes)
    requires |origin| == 8
    ensures GoodLabel(Label(origin))
  {
  }

  lemma MatchMeansChars(text: string, pat: string, i: int, k: nat)
    requires MatchAt(text, pat, i) && k < |pat|
    ensures text[i + k] == pat[k]
  {
    assert text[i..i + |pat|][k] == pat[k];
  }

  lemma FirstMatch(text: string, pat: string, i: nat)
    requires MatchAt(text, pat, i) && forall j: nat | j < i :: !MatchAt(text, pat, j)
    ensures Find(text, pat, 0) == i
  {
  }

  /** The marker does not overlap itself within a short label. */
  lemma MarkerOverlap(d: nat)
    requires 1 <= d <= 8
    ensures MARKER[d] != MARKER[0] || MARKER[d + 1] != MARKER[1]
  {
  }

  lemma NoMatch(text: string, pat: string, i: nat, k: nat)
    requires k < |pat| && i + k < |text| && text[i + k] != pat[k]
    ensures !MatchAt(text, pat, i)
  {
    if MatchAt(text, pat, i) {
      MatchMeansChars(text, pat, i, k);
    }
  }

  lemma NoMarkerInLabel(tag: string, rest: string, j: nat)
    requires GoodLabel(tag) && j < |tag|
    ensures !MatchAt(tag + MARKER + rest, MARKER, j)
  {
    var text, d := tag + MARKER + rest, |tag| - j;
    if |tag| <= 8 {
      // A match would reach into the real marker, d characters on.
      assert text[|tag|] == MARKER[0] && text[|tag| + 1] == MARKER[1];
      MarkerOverlap(d);
      NoMatch(text, MARKER, j, if MARKER[d] != MARKER[0] then d else d + 1);
    } else {
      assert text[j] == tag[j] && tag[j] in tag;
      NoMatch(text, MARKER, j, 0);
    }
  }

  /** The first place the marker occurs is right after the label. */
  lemma MarkerAfterLabel(tag: string, rest: string)
    requires GoodLabel(tag)
    ensures Find(tag + MARKER + rest, MARKER, 0) == |tag|
  {
    var text := tag + MARKER + rest;
    assert text[|tag|..|tag| + |MARKER|] == MARKER;
    forall j: nat | j < |tag| ensures !MatchAt(text, MARKER, j) {
      NoMarkerInLabel(tag, rest, j);
    }
    FirstMatch(text, MARKER, |tag|);
  }

  lemma BracketEndsList(s: string, close: string)
    requires s != [] && s[|s| - 1] != ' ' && '(' !in s && |close| >= 2 && close[..2] == " ("
    ensures Find(s + close, " (", 0) == |s|
  {
    var text := s + close;
    assert text[|s|..|s| + 2] == " (";
    forall j: nat | j < |s| ensures !MatchAt(text, " (", j) {
      if MatchAt(text, " (", j) {
        MatchMeansChars(text, " (", j, 0);
        MatchMeansChars(text, " (", j, 1);
      }
    }
    FirstMatch(text, " (", |s|);
  }

  lemma ListTextOfShown(rs: seq<Range>)
    requires Printable(rs) && rs != []
    ensures ListText(ShowRanges(rs) + CONFIRMED) == ShowRanges(rs) && ShowRanges(rs) != ""
  {
    var s := ShowRanges(rs);
    ShowRangesShape(rs);
    BracketEndsList(s, CONFIRMED);
    assert (s + CONFIRMED)[..|s|] == s;
    StripSolid(s);
  }

  lemma ConfirmedIsFound(before: string)
    ensures Find(before + CONFIRMED, CONFIRMED, 0) >= 0
  {
    var text := before + CONFIRMED;
    assert text[|before|..|before| + |CONFIRMED|] == CONFIRMED;
    assert MatchAt(text, CONFIRMED, |before|);
  }

  lemma LineParts(tag: string, tail: string)
    requires GoodLabel(tag)
    ensures var text, idx := tag + MARKER + tail, Find(tag + MARKER + tail, MARKER, 0);
            idx == |tag| > 0 && text[..idx] == tag && text[idx + |MARKER|..] == tail
  {
    MarkerAfterLabel(tag, tail);
  }

  /** Round trip: reading a rendered confirmed line yields exactly the ranges that were printed. */
  lemma ConfirmedLineRoundTrip(tag: string, rs: seq<Range>)
    requires GoodLabel(tag) && Strip(tag) != "" && Printable(rs) && rs != []
    ensures ParseLine(ShowLine(tag, rs, true)) == Some(Report(Strip(tag), rs))
  {
    var tail := ShowRanges(rs) + CONFIRMED;
    ConfirmedIsFound(tag + MARKER + ShowRanges(rs));
    LineShape(tag, ShowRanges(rs));
    LineParts(tag, tail);
    PartsRoundTrip(tag, rs);
  }

  lemma LineShape(tag: string, s: string)
    ensures tag + MARKER + s + CONFIRMED == tag + MARKER + (s + CONFIRMED)
  {
  }

  lemma PartsRoundTrip(tag: string, rs: seq<Range>)
    requires Strip(tag) != "" && Printable(rs) && rs != []
    ensures ParseParts(tag, ShowRanges(rs) + CONFIRMED) == Some(Report(Strip(tag), rs))
  {
    ListTextOfShown(rs);
    ParseShownRanges(rs, "");
    assert "" + ShowRanges(rs) == ShowRanges(rs);
  }

  /** In a suspected line a bracket opens only inside the label or at the closing word. */
  lemma WhereBracketsOpen(tag: string, s: string, q: nat)
    requires '(' !in s && q < |tag + MARKER + s + SUSPECTED| && (tag + MARKER + s + SUSPECTED)[q] == '('
    ensures q < |tag| || q == |tag| + |MARKER| + |s| + 1
  {
  }

  lemma NotConfirmedAt(tag: string, s: string, p: nat)
    requires GoodLabel(tag) && '(' !in s
    ensures !MatchAt(tag + MARKER + s + SUSPECTED, CONFIRMED, p)
  {
    var text := tag + MARKER + s + SUSPECTED;
    if MatchAt(text, CONFIRMED, p) {
      MatchMeansChars(text, CONFIRMED, p, 1);
      WhereBracketsOpen(tag, s, p + 1);
      if p + 1 < |tag| {
        assert tag[p + 1] in tag;
        MatchMeansChars(text, CONFIRMED, p, |tag| - p);
      } else {
        MatchMeansChars(text, CONFIRMED, p, 2);
      }
    }
  }

  /** A suspected line triggers nothing. */
  lemma SuspectedLineIsInert(tag: string, rs: seq<Range>)
    requires GoodLabel(tag) && Printable(rs) && rs != []
    ensures ParseLine(ShowLine(tag, rs, false)) == None
  {
    ShowRangesShape(rs);
    var p := Find(ShowLine(tag, rs, false), CONFIRMED, 0);
    if p >= 0 {
      NotConfirmedAt(tag, ShowRanges(rs), p);
    }
  }

  // ------------------------------------------------ lines, letter by letter

  lemma SomeDecimals()
    ensures Dec(0) == "0" && Dec(4) == "4" && Dec(7) == "7" && Dec(12) == "12" && Dec(150) == "150"
  {
    assert Dec(15) == "15";
  }

  /** Two lines as they are emitted (chat_client.py:422-429). */
  lemma LinesLookLike(tag: string)
    ensures ShowLine(tag, [Range(0, 4)], false) == tag + " missing seq " + "0\U{2013}4" + " (suspected)"
    ensures ShowLine(tag, [Range(7, 7), Range(12, 150)], true)
         == tag + " missing seq " + ("7" + ", " + "12\U{2013}150") + " (confirmed)"
  {
    SomeDecimals();
    var two := [Range(7, 7), Range(12, 150)];
    assert two[1..] == [Range(12, 150)];
    assert ShowRange(Range(0, 4)) == "0\U{2013}4" && ShowRange(Range(12, 150)) == "12\U{2013}150";
  }

  /** A line asks for something only if it holds the confirmed status, and a marker after at least one character. */
  lemma OnlyConfirmedLinesAct(text: string)
    requires ParseLine(text).Some?
    ensures exists i :: MatchAt(text, " (confirmed)", i)
    ensures exists j :: j > 0 && MatchAt(text, " missing seq ", j)
  {
    assert MatchAt(text, " (confirmed)", Find(text, CONFIRMED, 0));
    assert MatchAt(text, " missing seq ", Find(text, MARKER, 0));
  }

  lemma ItemParts(a: nat, b: nat, dash: char)
    requires dash == '-' || dash == '\U{2013}'
    ensures var item := Dec(a) + [dash] + Dec(b);
            SplitAt(item, dash) == (Dec(a), Dec(b)) && (dash == '-' ==> '\U{2013}' !in item)
  {
    SplitAtFirst(Dec(a), dash, Dec(b));
    assert '\U{2013}' !in Dec(a) && '\U{2013}' !in Dec(b);
  }

  /** The reader takes an ASCII hyphen as well as the dash, and bounds in either order. */
  lemma ItemIsTolerant(a: nat, b: nat, dash: char)
    requires dash == '-' || dash == '\U{2013}'
    ensures ParseItem(Dec(a) + [dash] + Dec(b)) == Some(if a <= b then Range(a, b) else Range(b, a))
  {
    ParseDigits(a);
    ParseDigits(b);
    ItemParts(a, b, dash);
  }

  /** The white space of `strip`, among ASCII characters. */
  predicate White(c: char) {
    c in {' ', '\t', '\n', '\U{b}', '\U{c}', '\r', '\U{1c}', '\U{1d}', '\U{1e}', '\U{1f}'}
  }

  predicate Blank(s: string) {
    forall i | 0 <= i < |s| :: White(s[i])
  }

  lemma {:induction false} StripLeftTrims(s: string) returns (a: string)
    ensures Blank(a) && s == a + StripLeft(s) && (StripLeft(s) != "" ==> !White(StripLeft(s)[0]))
  {
    a := "";
    if s != "" && IsSpace(s[0]) {
      a := StripLeftTrims(s[1..]);
      a := [s[0]] + a;
    }
  }

  lemma {:induction false} StripRightTrims(s: string) returns (b: string)
    ensures Blank(b) && s == StripRight(s) + b && (StripRight(s) != "" ==> !White(StripRight(s)[|StripRight(s)| - 1]))
  {
    b := "";
    if s != "" && IsSpace(s[|s| - 1]) {
      b := StripRightTrims(s[..|s| - 1]);
      b := b + [s[|s| - 1]];
    }
  }

  /** Stripping removes white space at both ends and nothing else. */
  lemma StripTrims(s: string) returns (a: string, b: string)
    ensures Blank(a) && Blank(b) && s == a + Strip(s) + b
    ensures Strip(s) != "" ==> !White(Strip(s)[0]) && !White(Strip(s)[|Strip(s)| - 1])
  {
    a := StripLeftTrims(s);
    b := StripRightTrims(StripLeft(s));
    Assoc(a, Strip(s), b);
  }

  /** Numbers may have a sign. */
  lemma SignIsRead(n: nat)
    ensures ParseInt(['+'] + Dec(n)) == Some(n) && ParseInt(['-'] + Dec(n)) == Some(-(n as int))
  {
    assert (['+'] + Dec(n))[1..] == Dec(n) && (['-'] + Dec(n))[1..] == Dec(n);
    ParseDec(n);
  }

  /** An item with a sign where a bound should be is no range. */
  lemma NegativeItem(b: nat)
    ensures ParseItem(['-'] + Dec(b)) == None
  {
    SplitAtFirst("", '-', Dec(b));
    assert "" + ['-'] + Dec(b) == ['-'] + Dec(b);
    assert '\U{2013}' !in ['-'] + Dec(b);
  }

  // ------------------------------------------------------------- labels

  function Zeros(k: nat): (b: Bytes)
    ensures |b| == k && forall i | 0 <= i < k :: b[i] == 0
  {
    seq(k, _ => 0)
  }

  lemma {:induction false} ZerosDropped(name: Bytes, k: nat)
    requires name == [] || name[|name| - 1] != 0
    ensures DropTrailingZeros(name + Zeros(k)) == name
  {
    var id := name + Zeros(k);
    if k > 0 {
      assert id[..|id| - 1] == name + Zeros(k - 1);
      ZerosDropped(name, k - 1);
    } else {
      assert id == name;
    }
  }

  lemma {:induction false} AsciiOf(b: Bytes)
    ensures (forall i | 0 <= i < |b| :: b[i] < 128) ==>
              |Ascii(b)| == |b| && forall i | 0 <= i < |b| :: Ascii(b)[i] == b[i] as char
    ensures (forall i | 0 <= i < |b| :: b[i] >= 128) ==> Ascii(b) == ""
  {
    if b != [] {
      AsciiOf(b[1..]);
      assert forall i | 0 <= i < |b[1..]| :: b[1..][i] == b[i + 1];
    }
  }

  /** The label of an id made of a callsign and padding is the callsign. */
  lemma LabelIsCallsign(name: Bytes, k: nat)
    requires name != [] && forall i | 0 <= i < |name| :: 0 < name[i] < 128
    ensures |Label(name + Zeros(k))| == |name|
    ensures forall i | 0 <= i < |name| :: Label(name + Zeros(k))[i] == name[i] as char
  {
    ZerosDropped(name, k);
    AsciiOf(name);
  }

  lemma {:induction false} HexAt(b: Bytes, i: nat)
    requires i < |b|
    ensures Hex(b)[2 * i] == "0123456789abcdef"[b[i] / 16] && Hex(b)[2 * i + 1] == "0123456789abcdef"[b[i] % 16]
  {
    if i > 0 {
      HexAt(b[1..], i - 1);
      assert Hex(b)[2 * i] == Hex(b[1..])[2 * (i - 1)] && Hex(b)[2 * i + 1] == Hex(b[1..])[2 * (i - 1) + 1];
    }
  }

  /** The label of an id without a single ASCII byte before its padding is its hex form. */
  lemma LabelIsHex(name: Bytes, k: nat)
    requires forall i | 0 <= i < |name| :: name[i] >= 128
    ensures var id, s := name + Zeros(k), Label(name + Zeros(k));
            && |s| == 2 * |id|
            && forall i | 0 <= i < |id| :: s[2 * i] == "0123456789abcdef"[id[i] / 16]
                                           && s[2 * i + 1] == "0123456789abcdef"[id[i] % 16]
  {
    ZerosDropped(name, k);
    AsciiOf(name);
    forall i | 0 <= i < |name + Zeros(k)|
      ensures Hex(name + Zeros(k))[2 * i] == "0123456789abcdef"[(name + Zeros(k))[i] / 16]
      ensures Hex(name + Zeros(k))[2 * i + 1] == "0123456789abcdef"[(name + Zeros(k))[i] % 16]
    {
      HexAt(name + Zeros(k), i);
    }
  }
}
