/** The snapshot payload: one `id|available|frozen|settled|version|time` line per account. */
module SnapshotText {
  import opened Word
  import opened Decimal
  import opened Options
  import opened LedgerSpec

  const NPOS := -1

  /** `find`: a position of `c` at or after `from`, or NPOS. NPOS + 1 is 0, as in `size_t`. */
  function Find(s: string, c: char, from: nat): (p: int)
    ensures p == NPOS || from <= p < |s|
    decreases |s| - from
  {
    if from >= |s| then NPOS else if s[from] == c then from else Find(s, c, from + 1)
  }

  /** ... the first such position, and NPOS only if there is none. */
  lemma {:induction false} FindFirst(s: string, c: char, from: nat)
    requires from <= |s|
    ensures var p := Find(s, c, from);
      if p == NPOS then c !in s[from..] else s[p] == c && c !in s[from..p]
    decreases |s| - from
  {
    if from < |s| && s[from] != c {
      FindFirst(s, c, from + 1);
      var p := Find(s, c, from);
      assert s[from..] == [s[from]] + s[from + 1..];
      if p != NPOS {
        assert s[from..p] == [s[from]] + s[from + 1..p];
      }
    }
  }

  /** `substr`: a length below zero is the huge length that `size_t` arithmetic gives. */
  function Substr(s: string, pos: nat, length: int): string
    requires pos <= |s|
  {
    if length < 0 || pos + length >= |s| then s[pos..] else s[pos..pos + length]
  }

  // ---- printing ----

  /** A field, its bar, and what follows. */
  function Cell(x: int, tail: string): string {
    PrintInt(x) + "|" + tail
  }

  function Column(b: Balance, k: nat): int
    requires k < 5
  {
    [b.available, b.frozen, b.settled, b.version, b.updatedAt][k]
  }

  /** The columns from the k-th on, separated by bars. */
  function Columns(b: Balance, k: nat): string
    requires k < 5
    decreases 5 - k
  {
    if k == 4 then PrintInt(Column(b, 4)) else Cell(Column(b, k), Columns(b, k + 1))
  }

  function Fields(id: uint64, b: Balance): string {
    Cell(id, Columns(b, 0))
  }

  /** A line as it is written. */
  lemma LineIs(id: uint64, b: Balance)
    ensures Fields(id, b) ==
      PrintInt(id) + "|" + PrintInt(b.available) + "|" + PrintInt(b.frozen) + "|" + PrintInt(b.settled) + "|"
      + PrintInt(b.version) + "|" + PrintInt(b.updatedAt)
  {
    hide PrintInt;
    assert Columns(b, 3) == PrintInt(b.version) + "|" + PrintInt(b.updatedAt);
    assert Columns(b, 2) == PrintInt(b.settled) + "|" + Columns(b, 3);
    assert Columns(b, 1) == PrintInt(b.frozen) + "|" + Columns(b, 2);
    assert Columns(b, 0) == PrintInt(b.available) + "|" + Columns(b, 1);
  }

  /** The text for the accounts in the given order. */
  function Render(accounts: map<uint64, Balance>, order: seq<uint64>): string
    requires forall i | 0 <= i < |order| :: order[i] in accounts
  {
    if order == [] then "" else
      Fields(order[0], accounts[order[0]]) + "\n" + Render(accounts, order[1..])
  }

  /** Every account once, in the order the hash map happens to yield them. */
  ghost predicate Enumerates(order: seq<uint64>, accounts: map<uint64, Balance>) {
    && (forall i | 0 <= i < |order| :: order[i] in accounts)
    && (forall id | id in accounts :: id in order)
    && (forall i, j | 0 <= i < j < |order| :: order[i] != order[j])
  }

  lemma RenderAppend(accounts: map<uint64, Balance>, order: seq<uint64>, id: uint64)
    requires forall i | 0 <= i < |order| :: order[i] in accounts
    requires id in accounts
    ensures Render(accounts, order + [id]) == Render(accounts, order) + Fields(id, accounts[id]) + "\n"
  {
    hide Fields;
    if order == [] {
      assert [id][1..] == [];
    } else {
      assert (order + [id])[1..] == order[1..] + [id];
      RenderAppend(accounts, order[1..], id);
    }
  }

  /** `order` lists, once each, the accounts that are no longer in `rest`. */
  ghost predicate Listed(order: seq<uint64>, accounts: map<uint64, Balance>, rest: map<uint64, Balance>) {
    && (forall i | 0 <= i < |order| :: order[i] in accounts && order[i] !in rest)
    && (forall id | id in accounts :: id in order || id in rest)
    && (forall i, j | 0 <= i < j < |order| :: order[i] != order[j])
    && rest.Keys <= accounts.Keys
  }

  lemma ListNext(order: seq<uint64>, accounts: map<uint64, Balance>, rest: map<uint64, Balance>, id: uint64)
    requires Listed(order, accounts, rest) && id in rest
    ensures Listed(order + [id], accounts, rest - {id})
  {
    var next := order + [id];
    assert next[|order|] == id;
    forall x | x in accounts
      ensures x in next || x in rest - {id}
    {
      if x in order {
        var i :| 0 <= i < |order| && order[i] == x;
        assert next[i] == x;
      }
    }
  }

  /** The snapshot of the accounts, in whatever order the map yields them. */
  method Print(accounts: map<uint64, Balance>) returns (text: string)
    ensures exists order :: Enumerates(order, accounts) && text == Render(accounts, order)
    ensures ParseText(text) == Some(accounts)
  {
    text := "";
    ghost var order: seq<uint64> := [];
    assert Render(accounts, order) == "";
    hide Render, Fields, ParseText;
    var rest := accounts;
    while rest != map[]
      invariant Listed(order, accounts, rest) && text == Render(accounts, order)
      decreases |rest|
    {
      var id :| id in rest;
      ListNext(order, accounts, rest, id);
      RenderAppend(accounts, order, id);
      text := text + Fields(id, accounts[id]) + "\n";
      order := order + [id];
      rest := rest - {id};
    }
    SnapshotRoundTrip(accounts, order);
  }

  // ---- parsing ----

  datatype LineResult = Skip | Throw | Entry(id: uint64, balance: Balance)

  /** The bar searched for after position `p`; a failed search (NPOS) makes the next one start over. */
  function NextBar(line: string, p: int): (q: int)
    requires NPOS <= p < |line|
    ensures NPOS <= q < |line|
  {
    Find(line, '|', p + 1)
  }

  function ParseLine(line: string): LineResult {
    var p1 := NextBar(line, NPOS);
    var p2 := NextBar(line, p1);
    var p3 := NextBar(line, p2);
    var p4 := NextBar(line, p3);
    var p5 := NextBar(line, p4);
    if p1 == NPOS || p5 == NPOS then Skip
    else ReadFields(Substr(line, 0, p1), Substr(line, p1 + 1, p2 - p1 - 1), Substr(line, p2 + 1, p3 - p2 - 1),
                    Substr(line, p3 + 1, p4 - p3 - 1), Substr(line, p4 + 1, p5 - p4 - 1), line[p5 + 1..])
  }

  function ReadFields(id: string, available: string, frozen: string, settled: string, version: string,
                      time: string): (r: LineResult)
    ensures r != Skip
  {
    match (StoULL(id), StoLL(available), StoLL(frozen), StoLL(settled), StoLL(version), StoULL(time))
    case (Some(i), Some(a), Some(f), Some(s), Some(v), Some(t)) => Entry(i, Balance(a, f, s, v, t))
    case _ => Throw
  }

  /** What successive `getline` calls return. */
  function Lines(text: string): seq<string>
    decreases |text|
  {
    if text == "" then [] else
      var e := Find(text, '\n', 0);
      if e == NPOS then [text] else [text[..e]] + Lines(text[e + 1..])
  }

  /** Lines joined again, each but the last ended by a newline. */
  function Joined(lines: seq<string>): string {
    if lines == [] then "" else if |lines| == 1 then lines[0] else lines[0] + "\n" + Joined(lines[1..])
  }

  /** `getline` loses nothing but one newline at the very end, and no line holds one. */
  lemma {:induction false} LinesRejoin(text: string)
    ensures text == Joined(Lines(text)) || text == Joined(Lines(text)) + "\n"
    ensures forall line | line in Lines(text) :: '\n' !in line
    ensures text == "" <==> Lines(text) == []
    decreases |text|
  {
    if text != "" {
      var e := Find(text, '\n', 0);
      FindFirst(text, '\n', 0);
      assert text[0..] == text;
      assert Lines(text) == if e == NPOS then [text] else [text[..e]] + Lines(text[e + 1..]);
      hide Find, Lines;
      if e != NPOS {
        LinesRejoin(text[e + 1..]);
        SplitAtNewline(text, e);
        JoinedFirst(text[..e], Lines(text[e + 1..]));
        hide Joined;
      }
    }
  }

  lemma SplitAtNewline(text: string, e: nat)
    requires e < |text| && text[e] == '\n'
    ensures text == text[..e] + "\n" + text[e + 1..]
    ensures text[e + 1..] == "" ==> text == text[..e] + "\n"
    ensures forall rest: string :: text[..e] + "\n" + (rest + "\n") == (text[..e] + "\n" + rest) + "\n"
  {
  }

  lemma JoinedFirst(line: string, lines: seq<string>)
    ensures Joined([line] + lines) == if lines == [] then line else line + "\n" + Joined(lines)
  {
    assert ([line] + lines)[1..] == lines;
  }

  /** The accounts read from the lines on top of those read before; None if a conversion throws. */
  function ParseLines(lines: seq<string>, state: map<uint64, Balance>): Option<map<uint64, Balance>> {
    if lines == [] then Some(state)
    else if lines[0] == "" then ParseLines(lines[1..], state)
    else
      match ParseLine(lines[0])
      case Skip => ParseLines(lines[1..], state)
      case Throw => None
      case Entry(id, balance) => ParseLines(lines[1..], state[id := balance])
  }

  function ParseText(text: string): Option<map<uint64, Balance>> {
    ParseLines(Lines(text), map[])
  }

  method Parse(text: string) returns (r: Option<map<uint64, Balance>>)
    ensures r == ParseText(text)
  {
    hide Find, ParseLine;
    var state: map<uint64, Balance> := map[];
    var pos := 0;
    assert text[0..] == text;
    while pos < |text|
      invariant 0 <= pos <= |text|
      invariant ParseLines(Lines(text[pos..]), state) == ParseText(text)
    {
      var e := Find(text, '\n', pos);
      NextLine(text, pos);
      var line := if e == NPOS then text[pos..] else text[pos..e];
      var next := if e == NPOS then |text| else e + 1;
      pos := next;
      if line == "" { continue; }
      match ParseLine(line)
      case Skip =>
      case Throw => return None;
      case Entry(id, balance) => state := state[id := balance];
    }
    return Some(state);
  }

  /** What `getline` returns at a position, and where it leaves off. */
  lemma NextLine(text: string, pos: nat)
    requires pos < |text|
    ensures var e := Find(text, '\n', pos);
      && (e == NPOS ==> Lines(text[pos..]) == [text[pos..]] + Lines(text[|text|..]))
      && (e != NPOS ==> pos <= e < |text| && Lines(text[pos..]) == [text[pos..e]] + Lines(text[e + 1..]))
  {
    FindInSuffix(text, '\n', pos);
    var e := Find(text, '\n', pos);
    var suffix := text[pos..];
    hide Find;
    if e != NPOS {
      assert suffix[..e - pos] == text[pos..e] && suffix[e - pos + 1..] == text[e + 1..];
    }
  }

  /** Searching from a position is searching the suffix that starts there. */
  lemma {:induction false} FindInSuffix(s: string, c: char, from: nat)
    requires from <= |s|
    ensures var p, q := Find(s, c, from), Find(s[from..], c, 0);
      if p == NPOS then q == NPOS else q == p - from
    decreases |s| - from, |s|
  {
    if from < |s| && s[from] != c {
      FindInSuffix(s, c, from + 1);
      FindInSuffix(s[from..], c, 1);
      assert s[from..][1..] == s[from + 1..];
    }
  }

  // ---- round trip ----

  lemma {:induction false} FindAt(head: string, c: char, tail: string, from: nat)
    requires from <= |head| && c !in head[from..]
    ensures Find(head + [c] + tail, c, from) == |head|
    decreases |head| - from
  {
    if from < |head| {
      assert head[from] == head[from..][0];
      assert head[from + 1..] == head[from..][1..];
      FindAt(head, c, tail, from + 1);
    }
  }

  lemma PrintedHasNo(x: int, c: char)
    requires !IsDigit(c) && c != '-'
    ensures c !in PrintInt(x)
  {
  }

  /** `text` is what follows position `p` of the line. */
  ghost predicate After(line: string, p: int, text: string) {
    NPOS <= p < |line| && line[p + 1..] == text
  }

  lemma AfterStart(line: string)
    ensures After(line, NPOS, line)
  {
  }

  /** A printed field is found between its bars, whatever is around it. */
  lemma FieldAfter(line: string, p: int, x: int, tail: string)
    requires After(line, p, Cell(x, tail))
    ensures var q := NextBar(line, p);
      p < q && Substr(line, p + 1, q - p - 1) == PrintInt(x) && After(line, q, tail)
  {
    var f, start := PrintInt(x), p + 1;
    var head := line[..start] + f;
    PrintedHasNo(x, '|');
    assert line == line[..start] + line[start..];
    assert line == head + ['|'] + tail;
    assert head[start..] == f;
    FindAt(head, '|', tail, start);
    assert line[start..start + |f|] == f;
  }

  lemma LineSplits(id: uint64, b: Balance)
    ensures var line := Fields(id, b);
      var p1 := NextBar(line, NPOS);
      var p2 := NextBar(line, p1);
      var p3 := NextBar(line, p2);
      var p4 := NextBar(line, p3);
      var p5 := NextBar(line, p4);
      && 0 <= p1 < p2 < p3 < p4 < p5
      && Substr(line, 0, p1) == PrintInt(id)
      && Substr(line, p1 + 1, p2 - p1 - 1) == PrintInt(b.available)
      && Substr(line, p2 + 1, p3 - p2 - 1) == PrintInt(b.frozen)
      && Substr(line, p3 + 1, p4 - p3 - 1) == PrintInt(b.settled)
      && Substr(line, p4 + 1, p5 - p4 - 1) == PrintInt(b.version)
      && After(line, p5, PrintInt(b.updatedAt))
  {
    var line := Fields(id, b);
    AfterStart(line);
    hide PrintInt, Cell, NextBar, Substr, After;
    FieldAfter(line, NPOS, id, Columns(b, 0));
    var p1 := NextBar(line, NPOS);
    FieldAfter(line, p1, b.available, Columns(b, 1));
    var p2 := NextBar(line, p1);
    FieldAfter(line, p2, b.frozen, Columns(b, 2));
    var p3 := NextBar(line, p2);
    FieldAfter(line, p3, b.settled, Columns(b, 3));
    var p4 := NextBar(line, p3);
    FieldAfter(line, p4, b.version, Columns(b, 4));
  }

  lemma LineRoundTrip(id: uint64, b: Balance)
    ensures ParseLine(Fields(id, b)) == Entry(id, b)
  {
    LineSplits(id, b);
    FieldsRead(id, b);
  }

  lemma FieldsRead(id: uint64, b: Balance)
    ensures ReadFields(PrintInt(id), PrintInt(b.available), PrintInt(b.frozen), PrintInt(b.settled),
                       PrintInt(b.version), PrintInt(b.updatedAt)) == Entry(id, b)
  {
    UnsignedPlain(id);
    SignedPlain(b.available);
    SignedPlain(b.frozen);
    SignedPlain(b.settled);
    SignedPlain(b.version);
    UnsignedPlain(b.updatedAt);
  }

  lemma SignedPlain(x: int64)
    ensures StoLL(PrintInt(x)) == Some(x)
  {
    SignedRoundTrip(x, "");
    assert PrintInt(x) + "" == PrintInt(x);
  }

  lemma UnsignedPlain(x: uint64)
    ensures StoULL(PrintInt(x)) == Some(x)
  {
    UnsignedRoundTrip(x, "");
    assert PrintInt(x) + "" == PrintInt(x);
  }

  lemma FieldsHaveNoNewline(id: uint64, b: Balance)
    ensures '\n' !in Fields(id, b) && Fields(id, b) != ""
  {
    hide PrintInt;
    PrintedHasNo(id, '\n');
    ColumnsHaveNoNewline(b, 0);
  }

  lemma {:induction false} ColumnsHaveNoNewline(b: Balance, k: nat)
    requires k < 5
    ensures '\n' !in Columns(b, k)
    decreases 5 - k
  {
    hide PrintInt, Column;
    PrintedHasNo(Column(b, k), '\n');
    if k < 4 {
      ColumnsHaveNoNewline(b, k + 1);
    }
  }

  lemma LinesFirst(line: string, rest: string)
    requires '\n' !in line
    ensures Lines(line + "\n" + rest) == [line] + Lines(rest)
  {
    var text := line + "\n" + rest;
    assert text == line + ['\n'] + rest;
    assert line[0..] == line;
    FindAt(line, '\n', rest, 0);
    assert text[..|line|] == line && text[|line| + 1..] == rest;
  }

  /** The accounts named in `order`, on top of `state`. */
  ghost function Merge(accounts: map<uint64, Balance>, order: seq<uint64>, state: map<uint64, Balance>)
    : map<uint64, Balance>
    requires forall i | 0 <= i < |order| :: order[i] in accounts
  {
    map id | id in state.Keys + (set x | x in order) :: if id in order then accounts[id] else state[id]
  }

  lemma MergeFirst(accounts: map<uint64, Balance>, order: seq<uint64>, state: map<uint64, Balance>)
    requires order != [] && forall i | 0 <= i < |order| :: order[i] in accounts
    ensures Merge(accounts, order, state) == Merge(accounts, order[1..], state[order[0] := accounts[order[0]]])
  {
    assert forall x :: x in order <==> x == order[0] || x in order[1..];
  }

  lemma MergeEnds(accounts: map<uint64, Balance>, order: seq<uint64>, state: map<uint64, Balance>)
    ensures Merge(accounts, [], state) == state
    ensures Enumerates(order, accounts) ==> Merge(accounts, order, map[]) == accounts
  {
  }

  lemma {:induction false} ParseRendered(accounts: map<uint64, Balance>, order: seq<uint64>,
                                         state: map<uint64, Balance>)
    requires forall i | 0 <= i < |order| :: order[i] in accounts
    ensures ParseLines(Lines(Render(accounts, order)), state) == Some(Merge(accounts, order, state))
  {
    hide Fields, ParseLine, Merge;
    if order == [] {
      MergeEnds(accounts, order, state);
    } else {
      var id := order[0];
      var line, rest := Fields(id, accounts[id]), Render(accounts, order[1..]);
      FieldsHaveNoNewline(id, accounts[id]);
      LinesFirst(line, rest);
      assert ([line] + Lines(rest))[1..] == Lines(rest);
      LineRoundTrip(id, accounts[id]);
      ParseRendered(accounts, order[1..], state[id := accounts[id]]);
      MergeFirst(accounts, order, state);
    }
  }

  /** Snapshot round trip: whatever the accounts and whatever the iteration order, reading the printed
      text gives back exactly the same accounts. */
  lemma SnapshotRoundTrip(accounts: map<uint64, Balance>, order: seq<uint64>)
    requires Enumerates(order, accounts)
    ensures ParseText(Render(accounts, order)) == Some(accounts)
  {
    hide ParseLines, Lines, Render, Merge;
    ParseRendered(accounts, order, map[]);
    MergeEnds(accounts, order, map[]);
  }

  // ---- the guard against malformed lines ----

  function Bars(s: string): nat {
    if s == "" then 0 else (if s[0] == '|' then 1 else 0) + Bars(s[1..])
  }

  /** The bars after position `p`. */
  function BarsAfter(line: string, p: int): nat
    requires NPOS <= p < |line|
  {
    Bars(line[p + 1..])
  }

  lemma {:induction false} FindBar(line: string, from: nat)
    requires from <= |line|
    ensures var q := Find(line, '|', from);
      if q == NPOS then Bars(line[from..]) == 0 else Bars(line[from..]) == 1 + Bars(line[q + 1..])
    decreases |line| - from
  {
    if from < |line| {
      assert line[from..][1..] == line[from + 1..];
      if line[from] != '|' {
        FindBar(line, from + 1);
      }
    }
  }

  lemma CountFive(line: string)
    ensures var p1 := NextBar(line, NPOS);
      var p5 := NextBar(line, NextBar(line, NextBar(line, NextBar(line, p1))));
      p1 == NPOS || p5 == NPOS <==> Bars(line) == 0 || Bars(line) == 4
  {
    AllBars(line);
    var p1 := NextBar(line, NPOS);
    var p2 := NextBar(line, p1);
    var p3 := NextBar(line, p2);
    CountNext(line, NPOS);
    CountNext(line, p1);
    CountNext(line, p2);
    CountNext(line, p3);
    CountNext(line, NextBar(line, p3));
    hide Bars, BarsAfter, NextBar;
  }

  /** The guard tests only the first and the fifth bar. Because a search that follows a failed one
      starts over, it drops a line exactly when the line has no bar or has four; a line with one, two
      or three bars, which lacks fields, is read. */
  lemma GuardSkips(line: string)
    ensures ParseLine(line) == Skip <==> Bars(line) == 0 || Bars(line) == 4
  {
    CountFive(line);
  }

  lemma AllBars(line: string)
    ensures Bars(line) == BarsAfter(line, NPOS)
  {
    assert line[0..] == line;
  }

  lemma CountNext(line: string, p: int)
    requires NPOS <= p < |line|
    ensures var q := NextBar(line, p);
      if q == NPOS then BarsAfter(line, p) == 0 else BarsAfter(line, p) == 1 + BarsAfter(line, q)
  {
    FindBar(line, p + 1);
  }

  lemma TruncatedLineSplits(id: uint64, a: int64, f: int64, s: int64)
    ensures var t1 := Cell(a, Cell(f, PrintInt(s)));
      var line := Cell(id, t1);
      var p1 := NextBar(line, NPOS);
      var p2 := NextBar(line, p1);
      var p3 := NextBar(line, p2);
      && 0 <= p1 < p2 < p3 && NextBar(line, p3) == NPOS
      && Substr(line, 0, p1) == PrintInt(id)
      && Substr(line, p1 + 1, p2 - p1 - 1) == PrintInt(a)
      && Substr(line, p2 + 1, p3 - p2 - 1) == PrintInt(f)
      && Substr(line, p3 + 1, NPOS - p3 - 1) == PrintInt(s)
      && After(line, p1, t1)
  {
    var t1 := Cell(a, Cell(f, PrintInt(s)));
    var line := Cell(id, t1);
    AfterStart(line);
    hide PrintInt, Cell, After, NextBar, Substr;
    FieldAfter(line, NPOS, id, t1);
    var p1 := NextBar(line, NPOS);
    FieldAfter(line, p1, a, Cell(f, PrintInt(s)));
    var p2 := NextBar(line, p1);
    FieldAfter(line, p2, f, PrintInt(s));
    LastField(line, NextBar(line, p2), s);
  }

  lemma TruncatedFieldsRead(id: uint64, a: int64, f: int64, s: int64)
    requires id <= INT64_MAX
    ensures ReadFields(PrintInt(id), PrintInt(a), PrintInt(f), PrintInt(s), PrintInt(id), Cell(a, Cell(f, PrintInt(s))))
      == Entry(id, Balance(a, f, s, id, Unsigned(a)))
  {
    UnsignedPlain(id);
    SignedPlain(id);
    SignedPlain(a);
    SignedPlain(f);
    SignedPlain(s);
    CellRead(a, Cell(f, PrintInt(s)));
    hide PrintInt, Cell, StoLL, StoULL, Unsigned;
  }

  lemma CellRead(x: int64, tail: string)
    ensures StoULL(Cell(x, tail)) == Some(Unsigned(x))
  {
    UnsignedRoundTrip(x, "|" + tail);
    assert PrintInt(x) + ("|" + tail) == Cell(x, tail);
  }

  /** So a line that lost its last two fields is not rejected: it yields an account whose version is
      its id and whose time is its available balance. */
  lemma TruncatedLineAccepted(id: uint64, a: int64, f: int64, s: int64)
    requires id <= INT64_MAX
    ensures ParseLine(Cell(id, Cell(a, Cell(f, PrintInt(s))))) == Entry(id, Balance(a, f, s, id, Unsigned(a)))
  {
    TruncatedLineSplits(id, a, f, s);
    TruncatedFieldsRead(id, a, f, s);
    hide PrintInt, Cell, NextBar, ReadFields, Unsigned;
  }

  lemma BarInside(line: string, p: int, q: int)
    requires NPOS <= p < q < |line| && line[q] == '|'
    ensures '|' in line[p + 1..]
  {
    assert line[p + 1..][q - p - 1] == '|';
  }

  lemma LastField(line: string, p: int, x: int)
    requires After(line, p, PrintInt(x))
    ensures NextBar(line, p) == NPOS
    ensures Substr(line, p + 1, NPOS - p - 1) == PrintInt(x)
  {
    PrintedHasNo(x, '|');
    FindFirst(line, '|', p + 1);
    var q := NextBar(line, p);
    if q != NPOS {
      BarInside(line, p, q);
    }
  }
}
