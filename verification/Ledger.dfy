/** The append-only JSONL ledger file. */
module Ledger {
  import opened Unicode
  import opened Values
  import opened JsonText
  import opened Platform
  import opened Receipts

  const NEWLINE: Unit := 0x0A

  const APPENDED_AT: Text := U("appended_at")
  const RECEIPT: Text := U("receipt")

  // ---------------------------------------------------------------- lines

  /** What `trim` removes: white space and line terminators. */
  predicate IsSpace(u: Unit) {
    || 0x09 <= u <= 0x0D || u == 0x20 || u == 0xA0 || u == 0x1680 || 0x2000 <= u <= 0x200A
    || u == 0x2028 || u == 0x2029 || u == 0x202F || u == 0x205F || u == 0x3000 || u == 0xFEFF
  }

  /** The twenty-five white space units and line terminators of ECMAScript. */
  lemma SpacesExactly(u: Unit)
    ensures IsSpace(u) <==> u in {
      0x0009, 0x000A, 0x000B, 0x000C, 0x000D, 0x0020, 0x00A0, 0x1680, 0x2000, 0x2001, 0x2002, 0x2003, 0x2004, 0x2005,
      0x2006, 0x2007, 0x2008, 0x2009, 0x200A, 0x2028, 0x2029, 0x202F, 0x205F, 0x3000, 0xFEFF}
  {
  }

  function TrimStart(t: Text): Text {
    if t != [] && IsSpace(t[0]) then TrimStart(t[1..]) else t
  }

  function TrimEnd(t: Text): Text {
    if t != [] && IsSpace(t[|t| - 1]) then TrimEnd(t[..|t| - 1]) else t
  }

  function Trim(t: Text): Text {
    TrimEnd(TrimStart(t))
  }

  /** `split("\n")`. */
  function Lines(t: Text): (ls: seq<Text>)
    ensures |ls| > 0
  {
    if t == [] then [[]]
    else if t[0] == NEWLINE then [[]] + Lines(t[1..])
    else ConsFirst(t[0], Lines(t[1..]))
  }

  function ConsFirst(u: Unit, ls: seq<Text>): (r: seq<Text>)
    requires ls != []
    ensures |r| == |ls|
  {
    [[u] + ls[0]] + ls[1..]
  }

  /** The trimmed lines that are not blank. */
  function Rows(lines: seq<Text>): seq<Text> {
    if lines == [] then []
    else Row(lines[0]) + Rows(lines[1..])
  }

  function Row(line: Text): seq<Text> {
    if Trim(line) == [] then [] else [Trim(line)]
  }

  lemma {:induction false} RowsConcat(a: seq<Text>, b: seq<Text>)
    ensures Rows(a + b) == Rows(a) + Rows(b)
  {
    if a == [] {
      assert a + b == b;
    } else {
      RowsConcat(a[1..], b);
      assert (a + b)[1..] == a[1..] + b;
      Assoc(Row(a[0]), Rows(a[1..]), Rows(b));
    }
  }

  lemma RowsOne(line: Text)
    ensures Rows([line]) == Row(line)
    ensures Row([]) == []
  {
    assert [line][1..] == [];
  }

  lemma ConsFirstConcat(u: Unit, a: seq<Text>, b: seq<Text>)
    requires a != []
    ensures ConsFirst(u, a + b) == ConsFirst(u, a) + b
  {
    assert (a + b)[1..] == a[1..] + b;
    Assoc([[u] + a[0]], a[1..], b);
  }

  lemma {:induction false} LinesAtBreak(a: Text, b: Text)
    ensures Lines(a + [NEWLINE] + b) == Lines(a) + Lines(b)
  {
    var t := a + [NEWLINE] + b;
    if a == [] {
      assert t[1..] == b;
    } else {
      LinesAtBreak(a[1..], b);
      assert t[1..] == a[1..] + [NEWLINE] + b;
      if a[0] == NEWLINE {
        Assoc([[]], Lines(a[1..]), Lines(b));
      } else {
        ConsFirstConcat(a[0], Lines(a[1..]), Lines(b));
      }
    }
  }

  lemma {:induction false} LinesSnoc(t: Text, u: Unit)
    requires u != NEWLINE
    ensures Lines(t + [u]) == SnocLast(Lines(t), u)
  {
    if t == [] {
      assert t + [u] == [u] && [u][1..] == [];
      assert [u] + [] == [u] && [] + [u] == [u];
      assert ConsFirst(u, [[]]) == [[u]] && SnocLast([[]], u) == [[u]];
    } else {
      LinesSnoc(t[1..], u);
      assert (t + [u])[1..] == t[1..] + [u];
      SnocLastAfterFirst(t[0], Lines(t[1..]), u);
    }
  }

  function SnocLast(ls: seq<Text>, u: Unit): seq<Text>
    requires ls != []
  {
    ls[..|ls| - 1] + [ls[|ls| - 1] + [u]]
  }

  lemma SnocLastAfterFirst(f: Unit, ls: seq<Text>, u: Unit)
    requires ls != []
    ensures SnocLast(ConsFirst(f, ls), u) == ConsFirst(f, SnocLast(ls, u))
    ensures SnocLast([[]] + ls, u) == [[]] + SnocLast(ls, u)
  {
    Assoc([f], ls[0], [u]);
  }

  lemma {:induction false} TrimStartSnoc(t: Text, u: Unit)
    requires IsSpace(u)
    ensures TrimStart(t + [u]) == if TrimStart(t) == [] then [] else TrimStart(t) + [u]
  {
    if t == [] {
      assert t + [u] == [u] && [u][1..] == [];
    } else {
      assert (t + [u])[1..] == t[1..] + [u];
      TrimStartSnoc(t[1..], u);
    }
  }

  lemma TrimSnoc(t: Text, u: Unit)
    requires IsSpace(u)
    ensures Trim(t + [u]) == Trim(t)
  {
    TrimStartSnoc(t, u);
    var s := TrimStart(t);
    assert (s + [u])[..|s + [u]| - 1] == s;
  }

  /** A space at either end of a text changes no row. */
  lemma RowsOfLeadingSpace(t: Text, u: Unit)
    requires IsSpace(u)
    ensures Rows(Lines([u] + t)) == Rows(Lines(t))
  {
    var ls := Lines(t);
    assert ([u] + t)[1..] == t;
    RowsOne([]);
    if u != NEWLINE {
      assert ([u] + ls[0])[1..] == ls[0];
    }
  }

  lemma RowsOfTrailingSpace(t: Text, u: Unit)
    requires IsSpace(u)
    ensures Rows(Lines(t + [u])) == Rows(Lines(t))
  {
    var ls := Lines(t);
    if u == NEWLINE {
      LinesAtBreak(t, []);
      assert t + [u] + [] == t + [u];
      RowsConcat(ls, [[]]);
      RowsOne([]);
    } else {
      var n := |ls| - 1;
      LinesSnoc(t, u);
      RowsConcat(ls[..n], [ls[n] + [u]]);
      RowsConcat(ls[..n], [ls[n]]);
      TrimSnoc(ls[n], u);
      RowsOne(ls[n] + [u]);
      RowsOne(ls[n]);
      assert ls == ls[..n] + [ls[n]];
    }
  }

  lemma {:induction false} RowsOfTrimStart(t: Text)
    ensures Rows(Lines(TrimStart(t))) == Rows(Lines(t))
  {
    if t != [] && IsSpace(t[0]) {
      RowsOfTrimStart(t[1..]);
      RowsOfLeadingSpace(t[1..], t[0]);
      assert t == [t[0]] + t[1..];
    }
  }

  lemma {:induction false} RowsOfTrimEnd(t: Text)
    ensures Rows(Lines(TrimEnd(t))) == Rows(Lines(t))
  {
    if t != [] && IsSpace(t[|t| - 1]) {
      RowsOfTrimEnd(t[..|t| - 1]);
      RowsOfTrailingSpace(t[..|t| - 1], t[|t| - 1]);
      assert t == t[..|t| - 1] + [t[|t| - 1]];
    }
  }

  /** Trimming the whole file changes line numbers but no row. */
  lemma RowsOfTrim(t: Text)
    ensures Rows(Lines(Trim(t))) == Rows(Lines(t))
  {
    RowsOfTrimStart(t);
    RowsOfTrimEnd(TrimStart(t));
  }

  lemma {:induction false} TrimStartBlank(t: Text)
    ensures TrimStart(t) == [] <==> forall i | 0 <= i < |t| :: IsSpace(t[i])
    ensures TrimStart(t) != [] ==> !IsSpace(TrimStart(t)[0])
  {
    if t != [] {
      TrimStartBlank(t[1..]);
      assert forall i | 1 <= i < |t| :: t[i] == t[1..][i - 1];
    }
  }

  lemma {:induction false} TrimEndKeepsHead(t: Text)
    requires t != [] && !IsSpace(t[0])
    ensures TrimEnd(t) != []
  {
    if IsSpace(t[|t| - 1]) {
      TrimEndKeepsHead(t[..|t| - 1]);
    }
  }

  lemma BlankExactly(t: Text)
    ensures Trim(t) == [] <==> forall i | 0 <= i < |t| :: IsSpace(t[i])
  {
    TrimStartBlank(t);
    if TrimStart(t) != [] {
      TrimEndKeepsHead(TrimStart(t));
    }
  }

  lemma {:induction false} TrimBehindSpaces(t: Text, line: Text)
    requires forall i | 0 <= i < |t| :: IsSpace(t[i])
    ensures Trim(t + line) == Trim(line)
  {
    if t == [] {
      assert t + line == line;
    } else {
      TrimBehindSpaces(t[1..], line);
      assert (t + line)[1..] == t[1..] + line;
    }
  }

  function Rejoined(lines: seq<Text>): Text {
    if lines == [] then []
    else if |lines| == 1 then lines[0]
    else lines[0] + [NEWLINE] + Rejoined(lines[1..])
  }

  lemma RejoinedFirst(u: Unit, lines: seq<Text>)
    requires lines != []
    ensures Rejoined(ConsFirst(u, lines)) == [u] + Rejoined(lines)
  {
    assert ConsFirst(u, lines)[1..] == lines[1..];
  }

  /** The lines hold no line feed, and with line feeds between them they are the text. */
  lemma {:induction false} LinesSplit(t: Text)
    ensures Rejoined(Lines(t)) == t
    ensures forall k | 0 <= k < |Lines(t)| :: NEWLINE !in Lines(t)[k]
  {
    if t != [] {
      LinesSplit(t[1..]);
      assert t == [t[0]] + t[1..];
      if t[0] == NEWLINE {
        assert ([[]] + Lines(t[1..]))[1..] == Lines(t[1..]);
      } else {
        RejoinedFirst(t[0], Lines(t[1..]));
      }
    }
  }

  predicate AllSpace(t: Text) {
    forall i | 0 <= i < |t| :: IsSpace(t[i])
  }

  lemma {:induction false} TrimStartSplit(t: Text) returns (lead: Text)
    ensures AllSpace(lead) && t == lead + TrimStart(t)
    ensures TrimStart(t) != [] ==> !IsSpace(TrimStart(t)[0])
  {
    if t != [] && IsSpace(t[0]) {
      lead := TrimStartSplit(t[1..]);
      lead := [t[0]] + lead;
    } else {
      lead := [];
    }
  }

  lemma {:induction false} TrimEndSplit(t: Text) returns (tail: Text)
    ensures AllSpace(tail) && t == TrimEnd(t) + tail
    ensures TrimEnd(t) != [] ==> !IsSpace(TrimEnd(t)[|TrimEnd(t)| - 1])
  {
    if t != [] && IsSpace(t[|t| - 1]) {
      tail := TrimEndSplit(t[..|t| - 1]);
      Assoc(TrimEnd(t), tail, [t[|t| - 1]]);
      tail := tail + [t[|t| - 1]];
    } else {
      tail := [];
    }
  }

  /** Trimming takes white space from both ends, and all of it. */
  lemma TrimExactly(t: Text) returns (lead: Text, tail: Text)
    ensures AllSpace(lead) && AllSpace(tail) && t == lead + (Trim(t) + tail)
    ensures Trim(t) != [] ==> !IsSpace(Trim(t)[0]) && !IsSpace(Trim(t)[|Trim(t)| - 1])
  {
    lead := TrimStartSplit(t);
    tail := TrimEndSplit(TrimStart(t));
    if Trim(t) != [] {
      assert TrimStart(t)[0] == Trim(t)[0];
    }
  }

  /** What follows the last line feed. */
  function LastLine(content: Text): Text {
    Lines(content)[|Lines(content)| - 1]
  }

  /** Nothing but white space follows the last line feed, if there is one. */
  predicate Framed(content: Text) {
    Trim(LastLine(content)) == []
  }

  lemma SnocLastOf(front: seq<Text>, last: Text, u: Unit)
    ensures SnocLast(front + [last], u) == front + [last + [u]]
  {
  }

  lemma {:induction false} LinesRunOn(content: Text, line: Text)
    requires NEWLINE !in line
    ensures Lines(content + line) == Lines(content)[..|Lines(content)| - 1] + [LastLine(content) + line]
  {
    var n, front, last := |line| - 1, Lines(content)[..|Lines(content)| - 1], LastLine(content);
    if line == [] {
      assert content + line == content && last + line == last;
    } else {
      var most, u := line[..n], line[n];
      LinesRunOn(content, most);
      LinesSnoc(content + most, u);
      SnocLastOf(front, last + most, u);
      Assoc(content, most, [u]);
      Assoc(last, most, [u]);
      assert line == most + [u];
    }
  }

  lemma RowsSnoc(front: seq<Text>, last: Text)
    ensures Rows(front + [last]) == Rows(front) + Row(last)
    ensures Row([]) == []
  {
    RowsConcat(front, [last]);
    RowsOne(last);
  }

  lemma LinesEnded(content: Text, line: Text)
    requires NEWLINE !in line
    ensures Lines(content + line + [NEWLINE])
      == Lines(content)[..|Lines(content)| - 1] + [LastLine(content) + line] + [[]]
  {
    LinesRunOn(content, line);
    LinesAtBreak(content + line, []);
    assert content + line + [NEWLINE] + [] == content + line + [NEWLINE];
  }

  lemma RowsOfEnded(front: seq<Text>, last: Text)
    ensures Rows(front + [last] + [[]]) == Rows(front) + Row(last)
  {
    RowsSnoc(front + [last], []);
    RowsSnoc(front, last);
  }

  lemma LastOfLines(content: Text)
    ensures Lines(content) == Lines(content)[..|Lines(content)| - 1] + [LastLine(content)]
  {
  }

  /** Appending one ended line adds that line as a row exactly if the last line was blank; otherwise the line is
      glued to the last row, and there are no more rows than before. */
  lemma RowsOfAppend(content: Text, line: Text)
    requires NEWLINE !in line && line != [] && Trim(line) == line
    ensures Framed(content + line + [NEWLINE])
    ensures Framed(content) ==> Rows(Lines(content + line + [NEWLINE])) == Rows(Lines(content)) + [line]
    ensures !Framed(content) ==> |Rows(Lines(content + line + [NEWLINE]))| == |Rows(Lines(content))|
  {
    var front, last := Lines(content)[..|Lines(content)| - 1], LastLine(content);
    LinesEnded(content, line);
    LastOfLines(content);
    RowsOfEnded(front, last + line);
    RowsSnoc(front, last);
    BlankExactly([]);
    BlankExactly(last);
    BlankExactly(last + line);
    if Framed(content) {
      TrimBehindSpaces(last, line);
    } else {
      var i :| 0 <= i < |last| && !IsSpace(last[i]);
      assert (last + line)[i] == last[i];
    }
  }

  lemma ObjectLine(v: Json)
    requires v.Obj?
    ensures var t := Print(v); NEWLINE !in t && t != [] && Trim(t) == t
  {
    PrintPrintable(v);
    var t := Print(v);
    assert t[0] == LBRACE && t[|t| - 1] == RBRACE;
  }

  // ---------------------------------------------------------------- reading

  /** What `readLedger` yields: the entries, or the line it throws at. */
  datatype Read = Entries(entries: seq<Json>) | Malformed(line: nat)

  function ReadFrom(p: Platform, lines: seq<Text>, i: nat): Read
    requires i <= |lines|
    decreases |lines| - i
  {
    if i == |lines| then Entries([])
    else if Trim(lines[i]) == [] then ReadFrom(p, lines, i + 1)
    else
      match p.parse(Trim(lines[i]))
      case None => Malformed(i + 1)
      case Some(v) => Joined([v], ReadFrom(p, lines, i + 1))
  }

  /** Entries read, and then what is read of the rest. */
  function Joined(es: seq<Json>, rest: Read): Read {
    match rest
    case Malformed(line) => Malformed(line)
    case Entries(more) => Entries(es + more)
  }

  lemma JoinedTwice(a: seq<Json>, b: seq<Json>, rest: Read)
    ensures Joined(a, Joined(b, rest)) == Joined(a + b, rest)
  {
    if rest.Entries? {
      Assoc(a, b, rest.entries);
    }
  }

  function ReadContent(p: Platform, content: Text): Read {
    ReadFrom(p, Lines(Trim(content)), 0)
  }

  function ParseAll(p: Platform, rows: seq<Text>): Option<seq<Json>> {
    if rows == [] then Some([])
    else
      match p.parse(rows[0])
      case None => None
      case Some(v) =>
        match ParseAll(p, rows[1..])
        case None => None
        case Some(vs) => Some([v] + vs)
  }

  lemma ParseAllCons(p: Platform, row: Text, rows: seq<Text>)
    ensures ParseAll(p, [row] + rows) ==
      match (p.parse(row), ParseAll(p, rows))
      case (Some(v), Some(vs)) => Some([v] + vs)
      case _ => None
  {
    assert ([row] + rows)[1..] == rows;
  }

  lemma {:induction false} ReadFromRows(p: Platform, lines: seq<Text>, i: nat)
    requires i <= |lines|
    ensures match ReadFrom(p, lines, i)
            case Entries(es) => ParseAll(p, Rows(lines[i..])) == Some(es)
            case Malformed(line) => ParseAll(p, Rows(lines[i..])) == None && i < line <= |lines|
    decreases |lines| - i
  {
    if i < |lines| {
      ReadFromRows(p, lines, i + 1);
      ParseAllCons(p, Trim(lines[i]), Rows(lines[i + 1..]));
      assert lines[i..][0] == lines[i] && lines[i..][1..] == lines[i + 1..];
      assert Row(lines[i]) == [] ==> Rows(lines[i..]) == Rows(lines[i + 1..]);
    }
  }

  /** The line named is the first one that is not blank and does not parse. */
  lemma {:induction false} ReadStopsAt(p: Platform, lines: seq<Text>, i: nat)
    requires i <= |lines| && ReadFrom(p, lines, i).Malformed?
    ensures var line := ReadFrom(p, lines, i).line;
      && i < line <= |lines|
      && Trim(lines[line - 1]) != [] && p.parse(Trim(lines[line - 1])).None?
      && forall k | i <= k < line - 1 :: Trim(lines[k]) == [] || p.parse(Trim(lines[k])).Some?
    decreases |lines| - i
  {
    if Trim(lines[i]) == [] || p.parse(Trim(lines[i])).Some? {
      ReadStopsAt(p, lines, i + 1);
    }
  }

  lemma EmptyReads(p: Platform)
    ensures ReadFrom(p, Lines([]), 0) == Entries([])
    ensures ReadContent(p, []) == Entries([])
  {
    assert Lines([]) == [[]] && Trim([]) == [];
    assert ReadFrom(p, [[]], 1) == Entries([]);
  }

  /** Reading depends on the rows alone: blank lines and outer white space change nothing. */
  lemma ReadIsParseOfRows(p: Platform, content: Text)
    ensures match ReadContent(p, content)
            case Entries(es) => ParseAll(p, Rows(Lines(content))) == Some(es)
            case Malformed(line) => ParseAll(p, Rows(Lines(content))) == None
  {
    var lines := Lines(Trim(content));
    ReadFromRows(p, lines, 0);
    assert lines[0..] == lines;
    RowsOfTrim(content);
  }

  lemma {:induction false} ParseAllSnoc(p: Platform, rows: seq<Text>, row: Text)
    ensures ParseAll(p, rows + [row]) ==
      match (ParseAll(p, rows), p.parse(row))
      case (Some(vs), Some(v)) => Some(vs + [v])
      case _ => None
  {
    if rows == [] {
      assert rows + [row] == [row] + [];
      ParseAllCons(p, row, []);
      assert p.parse(row).Some? ==> [p.parse(row).value] + [] == [] + [p.parse(row).value];
    } else {
      ParseAllSnoc(p, rows[1..], row);
      ParseAllCons(p, rows[0], rows[1..]);
      ParseAllCons(p, rows[0], rows[1..] + [row]);
      assert rows == [rows[0]] + rows[1..];
      assert rows + [row] == [rows[0]] + (rows[1..] + [row]);
      if p.parse(rows[0]).Some? && ParseAll(p, rows[1..]).Some? && p.parse(row).Some? {
        Assoc([p.parse(rows[0]).value], ParseAll(p, rows[1..]).value, [p.parse(row).value]);
      }
    }
  }

  /** The line written for an entry. */
  function LineOf(entry: Json): Text {
    Print(Stored(entry)) + [NEWLINE]
  }

  lemma {:induction false} ParseAllLength(p: Platform, rows: seq<Text>)
    ensures ParseAll(p, rows).Some? ==> |ParseAll(p, rows).value| == |rows|
  {
    if rows != [] {
      ParseAllLength(p, rows[1..]);
    }
  }

  /** Framing: appending an entry's line to a readable file makes exactly that entry, as written, the new last
      one if and only if the file's last line was blank; a file that was unreadable stays unreadable. */
  lemma ReadAfterAppend(p: Platform, content: Text, entry: Json)
    requires ReadsBack(p)
    requires entry.Obj? && Proper(entry) && Writable(entry)
    ensures Framed(content + LineOf(entry))
    ensures match ReadContent(p, content)
            case Entries(es) =>
              ReadContent(p, content + LineOf(entry)) == Entries(es + [Stored(entry)]) <==> Framed(content)
            case Malformed(_) => Framed(content) ==> ReadContent(p, content + LineOf(entry)).Malformed?
  {
    var line := Print(Stored(entry));
    StoredIsStorable(entry);
    ObjectLine(Stored(entry));
    RowsOfAppend(content, line);
    assert content + LineOf(entry) == content + line + [NEWLINE];
    ReadIsParseOfRows(p, content);
    ReadIsParseOfRows(p, content + LineOf(entry));
    ParseAllSnoc(p, Rows(Lines(content)), line);
    ParseAllLength(p, Rows(Lines(content)));
    ParseAllLength(p, Rows(Lines(content + LineOf(entry))));
  }

  // ---------------------------------------------------------------- the tail and appending

  /** What `getLastHash` yields; it throws on an unreadable file and on a last entry that is `null`. */
  datatype Tail = Tail(hash: Json) | NoTail

  function TailOf(read: Read): Tail {
    match read
    case Malformed(_) => NoTail
    case Entries(es) =>
      if es == [] then Tail(Null)
      else if es[|es| - 1].Null? then NoTail
      else Tail(Get(es[|es| - 1], RECEIPT_HASH))
  }

  datatype Appended =
    | Appended(entry: Json)
    | MissingReceiptHash
    | MissingSignature
    | LedgerUnreadable
    | LinkMismatch(expected: Json)

  function EntryOf(receipt: Json, now: Text): Json {
    Obj([
      Member(RECEIPT_HASH, Get(receipt, RECEIPT_HASH)),
      Member(PREVIOUS_RECEIPT_HASH, PrevOf(receipt)),
      Member(APPENDED_AT, Str(now)),
      Member(RECEIPT, receipt)
    ])
  }

  function AppendOutcome(p: Platform, content: Text, receipt: Json, now: Text): Appended {
    if !Truthy(Get(receipt, RECEIPT_HASH)) then MissingReceiptHash
    else if !Truthy(Get(receipt, SIGNATURE)) then MissingSignature
    else
      match TailOf(ReadContent(p, content))
      case NoTail => LedgerUnreadable
      case Tail(hash) => if StrictEq(hash, PrevOf(receipt)) then Appended(EntryOf(receipt, now)) else LinkMismatch(hash)
  }

  /** The file after an append, whatever its outcome. */
  function AfterAppend(p: Platform, content: Text, receipt: Json, now: Text): Text {
    match AppendOutcome(p, content, receipt, now)
    case Appended(entry) => content + LineOf(entry)
    case _ => content
  }

  /** The ledger file; a missing file reads as an empty one. */
  class LedgerFile {
    var present: bool
    var content: Text

    function Contents(): Text
      reads this
    {
      if present then content else []
    }

    method ReadLedger(p: Platform) returns (r: Read)
      ensures r == ReadContent(p, Contents())
      ensures match r
              case Entries(es) => ParseAll(p, Rows(Lines(Contents()))) == Some(es)
              case Malformed(line) => ParseAll(p, Rows(Lines(Contents()))) == None
    {
      ReadIsParseOfRows(p, Contents());
      EmptyReads(p);
      if !present {
        return Entries([]);
      }
      var trimmed := Trim(content);
      if trimmed == [] {
        return Entries([]);
      }
      var lines := Lines(trimmed);
      var entries: seq<Json> := [];
      for i := 0 to |lines|
        invariant ReadFrom(p, lines, 0) == Joined(entries, ReadFrom(p, lines, i))
      {
        var line := Trim(lines[i]);
        if line == [] {
          continue;
        }
        match p.parse(line)
        case None => return Malformed(i + 1);
        case Some(v) =>
          JoinedTwice(entries, [v], ReadFrom(p, lines, i + 1));
          entries := entries + [v];
      }
      return Entries(entries);
    }

    method GetLastHash(p: Platform) returns (r: Tail)
      ensures r == TailOf(ReadContent(p, Contents()))
      ensures r.NoTail? <==> TailLost(ReadContent(p, Contents()))
      ensures r.Tail? && !r.hash.Arr? && !r.hash.Obj? ==> EndsWithHash(ReadContent(p, Contents()), r.hash)
    {
      var read := ReadLedger(p);
      match read
      case Malformed(_) => return NoTail;
      case Entries(entries) =>
        if |entries| == 0 {
          return Tail(Null);
        }
        var last := entries[|entries| - 1];
        if last.Null? {
          return NoTail;
        }
        return Tail(Get(last, RECEIPT_HASH));
    }

    /** Appends a receipt that links to the tail, and otherwise leaves the file alone. */
    method AppendReceipt(p: Platform, receipt: Json, now: Text) returns (r: Appended)
      modifies this
      ensures r == AppendOutcome(p, old(Contents()), receipt, now)
      ensures r.Appended? ==>
        && Truthy(Get(receipt, RECEIPT_HASH)) && Truthy(Get(receipt, SIGNATURE))
        && EndsWithHash(ReadContent(p, old(Contents())), Get(r.entry, PREVIOUS_RECEIPT_HASH))
      ensures Contents() == AfterAppend(p, old(Contents()), receipt, now)
      ensures r.Appended? ==> present
      ensures !r.Appended? ==> present == old(present) && content == old(content)
      ensures r.Appended? && ReadsBack(p) && Proper(receipt) && Writable(receipt)
        ==> && Framed(Contents())
            && ReadContent(p, old(Contents())).Entries?
            && (ReadContent(p, Contents())
                == Entries(ReadContent(p, old(Contents())).entries + [Stored(EntryOf(receipt, now))])
                <==> Framed(old(Contents())))
    {
      AppendedExactly(p, Contents(), receipt, now);
      if AppendOutcome(p, Contents(), receipt, now).Appended? {
        AppendWrites(p, Contents(), receipt, now);
      }
      if !Truthy(Get(receipt, RECEIPT_HASH)) {
        return MissingReceiptHash;
      }
      if !Truthy(Get(receipt, SIGNATURE)) {
        return MissingSignature;
      }
      var expected := GetLastHash(p);
      if expected.NoTail? {
        return LedgerUnreadable;
      }
      var receiptPrevHash := PrevOf(receipt);
      if !StrictEq(expected.hash, receiptPrevHash) {
        return LinkMismatch(expected.hash);
      }
      var entry := EntryOf(receipt, now);
      var line := LineOf(entry);
      content := Contents() + line;
      present := true;
      if ReadsBack(p) && Proper(receipt) && Writable(receipt) {
        EntrySpec(receipt, now);
        ReadAfterAppend(p, old(Contents()), entry);
      }
      return Appended(entry);
    }
  }

  lemma StoredEntryHash(receipt: Json, now: Text)
    requires Proper(receipt)
    ensures Get(Stored(EntryOf(receipt, now)), RECEIPT_HASH) == Stored(Get(receipt, RECEIPT_HASH))
    ensures Stored(EntryOf(receipt, now)).Obj?
  {
    EntrySpec(receipt, now);
    StoredGet(EntryOf(receipt, now), RECEIPT_HASH);
  }

  /** After an append the tail is the appended receipt's hash, as written. */
  lemma TailAfterAppend(p: Platform, content: Text, receipt: Json, now: Text)
    requires ReadsBack(p) && Framed(content) && Proper(receipt) && Writable(receipt)
    requires AppendOutcome(p, content, receipt, now).Appended?
    ensures TailOf(ReadContent(p, AfterAppend(p, content, receipt, now))) == Tail(Stored(Get(receipt, RECEIPT_HASH)))
  {
    EntrySpec(receipt, now);
    ReadAfterAppend(p, content, EntryOf(receipt, now));
    StoredEntryHash(receipt, now);
  }

  lemma EntrySpec(receipt: Json, now: Text)
    ensures var e := EntryOf(receipt, now);
      && Distinct(e.members)
      && Get(e, RECEIPT_HASH) == Get(receipt, RECEIPT_HASH)
      && Get(e, PREVIOUS_RECEIPT_HASH) == PrevOf(receipt)
      && Get(e, APPENDED_AT) == Str(now)
      && Get(e, RECEIPT) == receipt
      && (Proper(receipt) ==> Proper(e))
      && (Writable(receipt) ==> Writable(e))
  {
    var ms := EntryOf(receipt, now).members;
    assert ms[0].key == RECEIPT_HASH && ms[1].key == PREVIOUS_RECEIPT_HASH
      && ms[2].key == APPENDED_AT && ms[3].key == RECEIPT;
    assert RECEIPT_HASH[0] == RECEIPT[0] == 'r' as int && |RECEIPT_HASH| == 12 && |RECEIPT| == 7;
    assert PREVIOUS_RECEIPT_HASH[0] == 'p' as int && APPENDED_AT[0] == 'a' as int;
    LookupAt(ms, 0);
    LookupAt(ms, 1);
    LookupAt(ms, 2);
    LookupAt(ms, 3);
    LinkValue(receipt);
    if Proper(receipt) {
      ProperGet(receipt, RECEIPT_HASH);
      assert forall i | 0 <= i < |ms| :: Proper(ms[i].value);
    }
    if Writable(receipt) {
      WritableGet(receipt, RECEIPT_HASH);
      assert forall i | 0 <= i < |ms| :: NamedKey(ms[i].key) && Writable(ms[i].value);
    }
  }

  /** The ledger reads, and the hash of its last entry, or null if it has none, is the scalar `link`. */
  predicate EndsWithHash(read: Read, link: Json) {
    && read.Entries? && !link.Arr? && !link.Obj?
    && (read.entries == [] ==> link == Null)
    && (read.entries != [] ==> EntryCarries(read.entries[|read.entries| - 1], link))
  }

  predicate EntryCarries(entry: Json, link: Json) {
    !entry.Null? && Get(entry, RECEIPT_HASH) == link
  }

  /** No tail can be told: a line does not parse, or the last entry is `null`. */
  predicate TailLost(read: Read) {
    read.Malformed? || (read.entries != [] && read.entries[|read.entries| - 1].Null?)
  }

  lemma LinkedToTail(read: Read, link: Json)
    ensures TailOf(read).NoTail? <==> TailLost(read)
    ensures TailOf(read).Tail? && StrictEq(TailOf(read).hash, link) <==> EndsWithHash(read, link)
  {
  }

  /** What an append asks for, and which refusal is given otherwise. */
  lemma AppendedExactly(p: Platform, content: Text, receipt: Json, now: Text)
    ensures var reference := Get(receipt, CHAIN_REFERENCE);
      var link := if Truthy(reference) then Get(reference, PREVIOUS_RECEIPT_HASH) else Null;
      var hashed, signed := Truthy(Get(receipt, RECEIPT_HASH)), Truthy(Get(receipt, SIGNATURE));
      var r, read := AppendOutcome(p, content, receipt, now), ReadContent(p, content);
      && (r.Appended? <==> hashed && signed && EndsWithHash(read, link))
      && (r.MissingReceiptHash? <==> !hashed)
      && (r.MissingSignature? <==> hashed && !signed)
      && (r.LedgerUnreadable? <==> hashed && signed && TailLost(read))
      && (r.LinkMismatch? <==> hashed && signed && !TailLost(read) && !EndsWithHash(read, link))
  {
    LinkedToTail(ReadContent(p, content), PrevOf(receipt));
  }

  /** What an append writes: one line that holds the receipt under its hash and link. */
  lemma AppendWrites(p: Platform, content: Text, receipt: Json, now: Text)
    requires AppendOutcome(p, content, receipt, now).Appended?
    ensures var entry := AppendOutcome(p, content, receipt, now).entry;
      && AfterAppend(p, content, receipt, now) == content + Print(Stored(entry)) + [NEWLINE]
      && Get(entry, RECEIPT_HASH) == Get(receipt, RECEIPT_HASH)
      && EndsWithHash(ReadContent(p, content), Get(entry, PREVIOUS_RECEIPT_HASH))
      && Get(entry, APPENDED_AT) == Str(now)
      && Get(entry, RECEIPT) == receipt
  {
    EntrySpec(receipt, now);
    LinkedToTail(ReadContent(p, content), PrevOf(receipt));
    Assoc(content, Print(Stored(EntryOf(receipt, now))), [NEWLINE]);
  }

  lemma LinkValue(receipt: Json)
    ensures Proper(receipt) ==> Proper(PrevOf(receipt))
    ensures Writable(receipt) ==> Writable(PrevOf(receipt))
  {
    if Proper(receipt) {
      ProperGet(receipt, CHAIN_REFERENCE);
      ProperGet(Get(receipt, CHAIN_REFERENCE), PREVIOUS_RECEIPT_HASH);
    }
    if Writable(receipt) {
      WritableGet(receipt, CHAIN_REFERENCE);
      WritableGet(Get(receipt, CHAIN_REFERENCE), PREVIOUS_RECEIPT_HASH);
    }
  }
}
