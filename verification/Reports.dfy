/** What the chain verifier's error list says of the file: every fault that is there and no other, and on which line. */
module Reports {
  import opened Unicode
  import opened Values
  import opened Platform
  import opened Receipts
  import opened Ledger
  import opened Chain

  // ---------------------------------------------------------------- what is wrong with a line

  predicate Sealed(receipt: Json) {
    Truthy(Get(receipt, SIGNATURE)) && Truthy(Get(receipt, PUBLIC_KEY))
  }

  predicate ReceiptFaulty(p: Platform, trusted: seq<Json>, r: Json, error: ChainError) {
    match error
    case HashMismatch => Get(r, RECEIPT_HASH) != Str(p.sha256(Payload(r)))
    case SignatureFailed => Sealed(r) && p.verify(Get(r, PUBLIC_KEY), Payload(r), Get(r, SIGNATURE)) == Invalid
    case SignatureThrew =>
      Sealed(r) && p.verify(Get(r, PUBLIC_KEY), Payload(r), Get(r, SIGNATURE)) == SignatureCheck.Threw
    case UntrustedKey => Sealed(r) && !Includes(trusted, Get(r, PUBLIC_KEY))
    case MissingSignatureOrKey => !Sealed(r)
    case _ => false
  }

  predicate EntryFaulty(p: Platform, trusted: seq<Json>, entry: Json, previousHash: Json, error: ChainError) {
    var hashed, held := Truthy(Get(entry, RECEIPT_HASH)), Truthy(Get(entry, RECEIPT));
    match error
    case MissingHash => !hashed
    case MissingReceipt => hashed && !held
    case LinkBroken => hashed && held && !StrictEq(Get(entry, PREVIOUS_RECEIPT_HASH), previousHash)
    case _ => hashed && held && ReceiptFaulty(p, trusted, Get(entry, RECEIPT), error)
  }

  /** The error is true of a trimmed line that must link to `previousHash`. */
  predicate Faulty(p: Platform, trusted: seq<Json>, row: Text, previousHash: Json, error: ChainError) {
    && row != []
    && match p.parse(row)
       case None => error == MalformedJson
       case Some(entry) => EntryFaulty(p, trusted, entry, previousHash, error)
  }

  lemma HashFindings(p: Platform, r: Json, error: ChainError)
    ensures error in HashErrors(p, r) <==> error.HashMismatch? && Get(r, RECEIPT_HASH) != Str(p.sha256(Payload(r)))
  {
  }

  lemma SignatureFindings(p: Platform, trusted: seq<Json>, r: Json, error: ChainError)
    ensures error in SignatureErrors(p, trusted, r) <==> !error.HashMismatch? && ReceiptFaulty(p, trusted, r, error)
  {
  }

  lemma PooledFindings(p: Platform, trusted: seq<Json>, r: Json, link: seq<ChainError>, error: ChainError)
    ensures error in link + HashErrors(p, r) + SignatureErrors(p, trusted, r)
      <==> error in link || ReceiptFaulty(p, trusted, r, error)
  {
    HashFindings(p, r, error);
    SignatureFindings(p, trusted, r, error);
  }

  /** The checks on one entry find exactly what is wrong with it. */
  lemma FindingsExact(p: Platform, trusted: seq<Json>, entry: Json, previousHash: Json, error: ChainError)
    requires !CheckEntry(p, trusted, entry, previousHash).Throws?
    ensures error in Found(CheckEntry(p, trusted, entry, previousHash))
      <==> EntryFaulty(p, trusted, entry, previousHash, error)
  {
    var link := if StrictEq(Get(entry, PREVIOUS_RECEIPT_HASH), previousHash) then [] else [LinkBroken];
    PooledFindings(p, trusted, Get(entry, RECEIPT), link, error);
  }

  // ---------------------------------------------------------------- the lines of the file

  /** The lines, each trimmed; blank ones are empty. */
  function Trims(lines: seq<Text>): (rows: seq<Text>)
    ensures |rows| == |lines|
  {
    if lines == [] then [] else [Trim(lines[0])] + Trims(lines[1..])
  }

  predicate Trimmed(lines: seq<Text>, rows: seq<Text>) {
    |rows| == |lines| && forall k | 0 <= k < |lines| :: rows[k] == Trim(lines[k])
  }

  lemma {:induction false} TrimsTrimmed(lines: seq<Text>)
    ensures Trimmed(lines, Trims(lines))
  {
    if lines != [] {
      TrimsTrimmed(lines[1..]);
      assert forall k | 1 <= k < |lines| :: lines[k] == lines[1..][k - 1];
    }
  }

  /** The row holds an entry with a hash and a receipt. */
  predicate CompleteEntry(p: Platform, row: Text) {
    && row != [] && p.parse(row).Some?
    && Truthy(Get(p.parse(row).value, RECEIPT_HASH)) && Truthy(Get(p.parse(row).value, RECEIPT))
  }

  function RowHash(p: Platform, row: Text, previousHash: Json): Json {
    if CompleteEntry(p, row) then Get(p.parse(row).value, RECEIPT_HASH) else previousHash
  }

  /** The link expected on line `i`: the hash of the last complete entry before it. */
  function Expected(p: Platform, rows: seq<Text>, i: nat): Json
    requires i <= |rows|
  {
    if i == 0 then Null else RowHash(p, rows[i - 1], Expected(p, rows, i - 1))
  }

  predicate Parses(p: Platform, row: Text) {
    row == [] || p.parse(row).Some?
  }

  predicate ReadableUpTo(p: Platform, rows: seq<Text>, i: nat)
    requires i <= |rows|
  {
    forall k | 0 <= k < i :: Parses(p, rows[k])
  }

  /** Line `n`, reached because all before it parse, has that fault. */
  predicate FaultOn(p: Platform, trusted: seq<Json>, rows: seq<Text>, n: nat, error: ChainError) {
    && 0 < n <= |rows|
    && ReadableUpTo(p, rows, n - 1)
    && Faulty(p, trusted, rows[n - 1], Expected(p, rows, n - 1), error)
  }

  lemma NoFaultOnBlank(p: Platform, trusted: seq<Json>, rows: seq<Text>, n: nat, error: ChainError)
    requires 0 < n <= |rows| ==> rows[n - 1] == []
    ensures !FaultOn(p, trusted, rows, n, error)
  {
  }

  lemma AtLineIn(index: nat, found: seq<ChainError>, n: nat, error: ChainError)
    ensures LineError(n, error) in AtLine(index, found) <==> n == index && error in found
  {
    if n == index && error in found {
      var k :| 0 <= k < |found| && found[k] == error;
      assert AtLine(index, found)[k] == LineError(n, error);
    }
  }

  lemma NotBefore(p: Platform, trusted: seq<Json>, lines: seq<Text>, i: nat, previousHash: Json, n: nat,
                  error: ChainError)
    requires n <= i <= |lines| && Walk(p, trusted, lines, i, previousHash).Done?
    ensures LineError(n, error) !in Walk(p, trusted, lines, i, previousHash).errors
  {
    ErrorsInOrder(p, trusted, lines, i, previousHash);
  }

  lemma ErrorsAt(p: Platform, trusted: seq<Json>, lines: seq<Text>, i: nat, previousHash: Json, n: nat,
                 error: ChainError)
    requires i < |lines| && Trim(lines[i]) != [] && p.parse(Trim(lines[i])).Some?
    requires Walk(p, trusted, lines, i, previousHash).Done?
    ensures var entry := p.parse(Trim(lines[i])).value;
      var rest := Walk(p, trusted, lines, i + 1, NextHash(entry, previousHash));
      && rest.Done?
      && (LineError(n, error) in Walk(p, trusted, lines, i, previousHash).errors <==>
            (n == i + 1 && EntryFaulty(p, trusted, entry, previousHash, error)) || LineError(n, error) in rest.errors)
  {
    var entry := p.parse(Trim(lines[i])).value;
    AtLineIn(i + 1, Found(CheckEntry(p, trusted, entry, previousHash)), n, error);
    FindingsExact(p, trusted, entry, previousHash, error);
  }

  lemma {:induction false} ErrorsFrom(p: Platform, trusted: seq<Json>, lines: seq<Text>, rows: seq<Text>, i: nat, n: nat,
                                      error: ChainError)
    requires Trimmed(lines, rows) && i <= |lines| && i < n && ReadableUpTo(p, rows, i)
    requires Walk(p, trusted, lines, i, Expected(p, rows, i)).Done?
    ensures LineError(n, error) in Walk(p, trusted, lines, i, Expected(p, rows, i)).errors
      <==> FaultOn(p, trusted, rows, n, error)
    decreases |lines| - i
  {
    if i < |lines| && Parses(p, rows[i]) {
      if rows[i] != [] {
        ErrorsAt(p, trusted, lines, i, Expected(p, rows, i), n, error);
      }
      if n == i + 1 {
        NotBefore(p, trusted, lines, i + 1, Expected(p, rows, i + 1), n, error);
      } else {
        ErrorsFrom(p, trusted, lines, rows, i + 1, n, error);
      }
    }
  }

  // ---------------------------------------------------------------- the trim

  function Blanks(n: nat): (rows: seq<Text>)
    ensures |rows| == n && forall k | 0 <= k < n :: rows[k] == []
  {
    if n == 0 then [] else [[]] + Blanks(n - 1)
  }

  function LeadingBlanks(rows: seq<Text>): nat {
    if rows == [] || rows[0] != [] then 0 else 1 + LeadingBlanks(rows[1..])
  }

  function LeadingBreaks(t: Text): nat {
    if t == [] || !IsSpace(t[0]) then 0
    else (if t[0] == NEWLINE then 1 else 0) + LeadingBreaks(t[1..])
  }

  function TrailingBreaks(t: Text): nat {
    if t == [] || !IsSpace(t[|t| - 1]) then 0
    else (if t[|t| - 1] == NEWLINE then 1 else 0) + TrailingBreaks(t[..|t| - 1])
  }

  lemma TrimsCons(line: Text, lines: seq<Text>)
    ensures Trims([line] + lines) == [Trim(line)] + Trims(lines)
  {
  }

  lemma TrimsSnoc(lines: seq<Text>, line: Text)
    ensures Trims(lines + [line]) == Trims(lines) + [Trim(line)]
  {
    TrimsTrimmed(lines + [line]);
    TrimsTrimmed(lines);
  }

  lemma TrimsAfterSpace(u: Unit, lines: seq<Text>)
    requires IsSpace(u) && lines != []
    ensures Trims(ConsFirst(u, lines)) == Trims(lines)
  {
    TrimsCons([u] + lines[0], lines[1..]);
    TrimsCons(lines[0], lines[1..]);
    assert lines == [lines[0]] + lines[1..];
    assert ([u] + lines[0])[1..] == lines[0];
  }

  lemma TrimsBeforeSpace(lines: seq<Text>, u: Unit)
    requires IsSpace(u) && lines != []
    ensures Trims(SnocLast(lines, u)) == Trims(lines)
  {
    var front, last := lines[..|lines| - 1], lines[|lines| - 1];
    TrimsSnoc(front, last + [u]);
    TrimsSnoc(front, last);
    assert lines == front + [last];
    TrimSnoc(last, u);
  }

  lemma {:induction false} TrimStartRows(t: Text)
    ensures Trims(Lines(t)) == Blanks(LeadingBreaks(t)) + Trims(Lines(TrimStart(t)))
  {
    if t != [] && IsSpace(t[0]) {
      TrimStartRows(t[1..]);
      if t[0] == NEWLINE {
        TrimsCons([], Lines(t[1..]));
        BlankExactly([]);
        Assoc([[]], Blanks(LeadingBreaks(t[1..])), Trims(Lines(TrimStart(t))));
      } else {
        TrimsAfterSpace(t[0], Lines(t[1..]));
      }
    }
  }

  lemma {:induction false} BlanksSnoc(n: nat)
    ensures Blanks(n) + [[]] == Blanks(n + 1)
  {
  }

  lemma TrimsEnded(t: Text)
    ensures Trims(Lines(t + [NEWLINE])) == Trims(Lines(t)) + [[]]
  {
    LinesAtBreak(t, []);
    assert t + [NEWLINE] + [] == t + [NEWLINE];
    TrimsSnoc(Lines(t), []);
    BlankExactly([]);
  }

  lemma {:induction false} TrimEndRows(t: Text)
    ensures Trims(Lines(t)) == Trims(Lines(TrimEnd(t))) + Blanks(TrailingBreaks(t))
  {
    if t != [] && IsSpace(t[|t| - 1]) {
      var front, u := t[..|t| - 1], t[|t| - 1];
      assert t == front + [u];
      TrimEndRows(front);
      if u == NEWLINE {
        TrimsEnded(front);
        Assoc(Trims(Lines(TrimEnd(front))), Blanks(TrailingBreaks(front)), [[]]);
        BlanksSnoc(TrailingBreaks(front));
      } else {
        LinesSnoc(front, u);
        TrimsBeforeSpace(Lines(front), u);
      }
    }
  }

  /** The rows `inner` stand in `rows` from line `s` on, and everything around them is blank. */
  predicate Shifted(inner: seq<Text>, rows: seq<Text>, s: nat) {
    && |inner| + s <= |rows|
    && (forall k | 0 <= k < |inner| :: rows[k + s] == inner[k])
    && (forall k | 0 <= k < |rows| && !(s <= k < |inner| + s) :: rows[k] == [])
  }

  predicate AllBlank(rows: seq<Text>) {
    forall k | 0 <= k < |rows| :: rows[k] == []
  }

  lemma PaddedIsShifted(before: seq<Text>, inner: seq<Text>, after: seq<Text>)
    requires AllBlank(before) && AllBlank(after)
    ensures Shifted(inner, before + (inner + after), |before|)
  {
    var s, rest, rows := |before|, inner + after, before + (inner + after);
    forall k | 0 <= k < |rest| ensures rows[k + s] == rest[k] {
    }
    forall k | 0 <= k < |rows| && !(s <= k < |inner| + s) ensures rows[k] == [] {
      if k >= s {
        assert rows[k - s + s] == rest[k - s] == after[k - s - |inner|];
      }
    }
  }

  lemma {:induction false} BlanksCounted(rows: seq<Text>, s: nat)
    requires s <= |rows| && (s < |rows| ==> rows[s] != []) && forall k | 0 <= k < s :: rows[k] == []
    ensures LeadingBlanks(rows) == s
  {
    if s > 0 {
      BlanksCounted(rows[1..], s - 1);
    }
  }

  lemma FirstRowFull(t: Text)
    requires t != [] && !IsSpace(t[0])
    ensures Trims(Lines(t))[0] != []
  {
    BlankExactly(Lines(t)[0]);
    TrimsTrimmed(Lines(t));
    assert Lines(t)[0][0] == t[0];
  }

  lemma {:induction false} TrimEndHead(t: Text)
    requires TrimEnd(t) != []
    ensures t != [] && TrimEnd(t)[0] == t[0]
  {
    if IsSpace(t[|t| - 1]) {
      TrimEndHead(t[..|t| - 1]);
    }
  }

  lemma TrimmedRows(content: Text)
    requires Trim(content) != []
    ensures Trims(Lines(Trim(content)))[0] != []
  {
    TrimStartBlank(content);
    TrimEndHead(TrimStart(content));
    FirstRowFull(Trim(content));
  }

  lemma LeadingOfShifted(inner: seq<Text>, rows: seq<Text>, s: nat)
    requires Shifted(inner, rows, s) && inner != [] && inner[0] != []
    ensures LeadingBlanks(rows) == s
  {
    assert rows[0 + s] == inner[0];
    BlanksCounted(rows, s);
  }

  lemma TrimRows(content: Text)
    ensures Trims(Lines(content))
      == Blanks(LeadingBreaks(content)) + (Trims(Lines(Trim(content))) + Blanks(TrailingBreaks(TrimStart(content))))
  {
    TrimStartRows(content);
    TrimEndRows(TrimStart(content));
  }

  /** Trimming a file that is not blank shifts its lines by the number of blank ones it starts with. */
  lemma TrimShifts(content: Text)
    requires Trim(content) != []
    ensures Shifted(Trims(Lines(Trim(content))), Trims(Lines(content)), LeadingBlanks(Trims(Lines(content))))
  {
    TrimRows(content);
    PaddedIsShifted(Blanks(LeadingBreaks(content)), Trims(Lines(Trim(content))),
                    Blanks(TrailingBreaks(TrimStart(content))));
    TrimmedRows(content);
    LeadingOfShifted(Trims(Lines(Trim(content))), Trims(Lines(content)), LeadingBreaks(content));
  }

  lemma {:induction false} ExpectedPastBlanks(p: Platform, rows: seq<Text>, s: nat)
    requires s <= |rows| && forall k | 0 <= k < s :: rows[k] == []
    ensures Expected(p, rows, s) == Null
  {
    if s > 0 {
      ExpectedPastBlanks(p, rows, s - 1);
    }
  }

  lemma {:induction false} ExpectedShifted(p: Platform, inner: seq<Text>, rows: seq<Text>, s: nat, i: nat)
    requires Shifted(inner, rows, s) && i <= |inner|
    ensures Expected(p, inner, i) == Expected(p, rows, i + s)
  {
    if i == 0 {
      ExpectedPastBlanks(p, rows, s);
    } else {
      ExpectedShifted(p, inner, rows, s, i - 1);
      assert rows[i - 1 + s] == inner[i - 1];
    }
  }

  lemma ReadableShifted(p: Platform, inner: seq<Text>, rows: seq<Text>, s: nat, i: nat)
    requires Shifted(inner, rows, s) && i <= |inner|
    ensures ReadableUpTo(p, inner, i) <==> ReadableUpTo(p, rows, i + s)
  {
    if ReadableUpTo(p, rows, i + s) {
      forall k | 0 <= k < i ensures Parses(p, inner[k]) {
        assert Parses(p, rows[k + s]);
      }
    }
    if ReadableUpTo(p, inner, i) {
      forall k | 0 <= k < i + s ensures Parses(p, rows[k]) {
        assert k >= s ==> rows[k - s + s] == inner[k - s];
      }
    }
  }

  lemma FaultShifted(p: Platform, trusted: seq<Json>, inner: seq<Text>, rows: seq<Text>, s: nat, n: nat,
                     error: ChainError)
    requires Shifted(inner, rows, s)
    ensures FaultOn(p, trusted, inner, n, error) <==> FaultOn(p, trusted, rows, n + s, error)
  {
    if 0 < n <= |inner| {
      assert rows[n - 1 + s] == inner[n - 1];
      ExpectedShifted(p, inner, rows, s, n - 1);
      ReadableShifted(p, inner, rows, s, n - 1);
    } else {
      NoFaultOnBlank(p, trusted, inner, n, error);
      NoFaultOnBlank(p, trusted, rows, n + s, error);
    }
  }

  lemma BlankRows(content: Text)
    requires Trim(content) == []
    ensures Shifted([], Trims(Lines(content)), LeadingBlanks(Trims(Lines(content))))
  {
    TrimRows(content);
    assert Lines([]) == [[]] && Trim([]) == [];
    assert Trims([[]]) == [[]];
    var rows := Trims(Lines(content));
    assert forall k | 0 <= k < |rows| :: rows[k] == [];
    BlanksCounted(rows, |rows|);
  }

  /** The rows of the file as the verifier sees them. */
  function SeenRows(content: Text): seq<Text> {
    if Trim(content) == [] then [] else Trims(Lines(Trim(content)))
  }

  lemma SeenShifted(content: Text)
    ensures Shifted(SeenRows(content), Trims(Lines(content)), LeadingBlanks(Trims(Lines(content))))
  {
    if Trim(content) == [] {
      BlankRows(content);
    } else {
      TrimShifts(content);
    }
  }

  lemma ErrorsOfSeen(p: Platform, trusted: seq<Json>, content: Text, n: nat, error: ChainError)
    requires ReportOf(p, trusted, true, content).Report?
    ensures LineError(n, error) in ReportOf(p, trusted, true, content).errors
      <==> FaultOn(p, trusted, SeenRows(content), n, error)
  {
    if Trim(content) != [] {
      if n == 0 {
        NotBefore(p, trusted, Lines(Trim(content)), 0, Null, n, error);
      } else {
        TrimsTrimmed(Lines(Trim(content)));
        ErrorsFrom(p, trusted, Lines(Trim(content)), SeenRows(content), 0, n, error);
      }
    }
  }

  /** The fault stands on line `n` of the file, not counting the blank lines it starts with. */
  predicate FaultInFile(p: Platform, trusted: seq<Json>, rows: seq<Text>, n: nat, error: ChainError) {
    FaultOn(p, trusted, rows, n + LeadingBlanks(rows), error)
  }

  lemma FaultOfSeen(p: Platform, trusted: seq<Json>, inner: seq<Text>, rows: seq<Text>, n: nat, error: ChainError)
    requires Shifted(inner, rows, LeadingBlanks(rows))
    ensures FaultOn(p, trusted, inner, n, error) <==> FaultInFile(p, trusted, rows, n, error)
  {
    FaultShifted(p, trusted, inner, rows, LeadingBlanks(rows), n, error);
  }

  /** The report on a file lists a fault under line `n` exactly if that fault is found on the file's own line `n` plus
      the number of blank lines it starts with, and every line before that one parses. */
  lemma ErrorsExactly(p: Platform, trusted: seq<Json>, content: Text, n: nat, error: ChainError)
    requires ReportOf(p, trusted, true, content).Report?
    ensures LineError(n, error) in ReportOf(p, trusted, true, content).errors
      <==> FaultInFile(p, trusted, Trims(Lines(content)), n, error)
  {
    SeenShifted(content);
    ErrorsOfSeen(p, trusted, content, n, error);
    FaultOfSeen(p, trusted, SeenRows(content), Trims(Lines(content)), n, error);
  }

  // ---------------------------------------------------------------- when verification throws

  /** The trimmed line holds `null`, or a complete entry with a wrong hash, or a key that is not trusted, that is no
      string: the message cuts it short. */
  predicate Breaks(p: Platform, trusted: seq<Json>, row: Text) {
    && row != [] && p.parse(row).Some?
    && (p.parse(row).value.Null? || (CompleteEntry(p, row) && Uncut(p, trusted, Get(p.parse(row).value, RECEIPT))))
  }

  predicate Uncut(p: Platform, trusted: seq<Json>, r: Json) {
    || (Get(r, RECEIPT_HASH) != Str(p.sha256(Payload(r))) && !Get(r, RECEIPT_HASH).Str?)
    || (Sealed(r) && !Includes(trusted, Get(r, PUBLIC_KEY)) && !Get(r, PUBLIC_KEY).Str?)
  }

  predicate BreaksAt(p: Platform, trusted: seq<Json>, rows: seq<Text>, k: nat)
    requires k < |rows|
  {
    ReadableUpTo(p, rows, k) && Breaks(p, trusted, rows[k])
  }

  predicate BreaksFrom(p: Platform, trusted: seq<Json>, rows: seq<Text>, i: nat) {
    exists k | i <= k < |rows| :: BreaksAt(p, trusted, rows, k)
  }

  lemma BreaksExactly(p: Platform, trusted: seq<Json>, row: Text, previousHash: Json)
    requires row != [] && p.parse(row).Some?
    ensures Breaks(p, trusted, row) <==> CheckEntry(p, trusted, p.parse(row).value, previousHash).Throws?
  {
  }

  lemma BreaksStep(p: Platform, trusted: seq<Json>, rows: seq<Text>, i: nat)
    requires i < |rows| && ReadableUpTo(p, rows, i)
    ensures BreaksFrom(p, trusted, rows, i) <==>
      Parses(p, rows[i]) && (Breaks(p, trusted, rows[i]) || BreaksFrom(p, trusted, rows, i + 1))
  {
    if Breaks(p, trusted, rows[i]) {
      assert BreaksAt(p, trusted, rows, i);
    }
  }

  lemma {:induction false} WalkThrowsExactly(p: Platform, trusted: seq<Json>, lines: seq<Text>, rows: seq<Text>, i: nat,
                                             previousHash: Json)
    requires Trimmed(lines, rows) && i <= |lines| && ReadableUpTo(p, rows, i)
    ensures Walk(p, trusted, lines, i, previousHash).Crashed? <==> BreaksFrom(p, trusted, rows, i)
    decreases |lines| - i
  {
    if i < |lines| {
      BreaksStep(p, trusted, rows, i);
      if Parses(p, rows[i]) {
        WalkThrowsExactly(p, trusted, lines, rows, i + 1, RowHash(p, rows[i], previousHash));
        if rows[i] != [] {
          BreaksExactly(p, trusted, rows[i], previousHash);
        }
      }
    }
  }

  lemma BreaksShifted(p: Platform, trusted: seq<Json>, inner: seq<Text>, rows: seq<Text>, s: nat)
    requires Shifted(inner, rows, s)
    ensures BreaksFrom(p, trusted, inner, 0) <==> BreaksFrom(p, trusted, rows, 0)
  {
    if BreaksFrom(p, trusted, inner, 0) {
      var k :| 0 <= k < |inner| && BreaksAt(p, trusted, inner, k);
      ReadableShifted(p, inner, rows, s, k);
      assert BreaksAt(p, trusted, rows, k + s);
    }
    if BreaksFrom(p, trusted, rows, 0) {
      var k :| 0 <= k < |rows| && BreaksAt(p, trusted, rows, k);
      ReadableShifted(p, inner, rows, s, k - s);
      assert rows[k - s + s] == inner[k - s];
      assert BreaksAt(p, trusted, inner, k - s);
    }
  }

  lemma ThrowsOfSeen(p: Platform, trusted: seq<Json>, content: Text)
    ensures ReportOf(p, trusted, true, content).Threw? <==> BreaksFrom(p, trusted, SeenRows(content), 0)
  {
    if Trim(content) != [] {
      TrimsTrimmed(Lines(Trim(content)));
      WalkThrowsExactly(p, trusted, Lines(Trim(content)), SeenRows(content), 0, Null);
    }
  }

  /** Verification throws exactly if one of the file's lines breaks it, and every line before that one parses. */
  lemma ThrowsExactly(p: Platform, trusted: seq<Json>, content: Text)
    ensures ReportOf(p, trusted, true, content).Threw? <==> BreaksFrom(p, trusted, Trims(Lines(content)), 0)
  {
    var rows := Trims(Lines(content));
    SeenShifted(content);
    ThrowsOfSeen(p, trusted, content);
    BreaksShifted(p, trusted, SeenRows(content), rows, LeadingBlanks(rows));
  }

  // ---------------------------------------------------------------- the report as a whole

  function NonBlank(rows: seq<Text>): nat {
    if rows == [] then 0 else (if rows[0] == [] then 0 else 1) + NonBlank(rows[1..])
  }

  lemma {:induction false} NonBlankRows(lines: seq<Text>)
    ensures |Rows(lines)| == NonBlank(Trims(lines))
  {
    if lines != [] {
      NonBlankRows(lines[1..]);
    }
  }

  /** A missing file is one error under line 0; any other report counts the non-blank lines of the file, errors or not,
      and says valid exactly if it lists none. */
  lemma ReportShape(p: Platform, trusted: seq<Json>, present: bool, content: Text)
    requires ReportOf(p, trusted, present, content).Report?
    ensures var r := ReportOf(p, trusted, present, content);
      && (r.valid <==> r.errors == [])
      && (!present ==> r.errors == [LineError(0, LedgerNotFound)] && r.totalRecords == 0)
      && (present ==> r.totalRecords == NonBlank(Trims(Lines(content))))
  {
    NonBlankRows(Lines(content));
    RowsOfTrim(content);
    if Trim(content) == [] {
      assert Lines([]) == [[]];
      RowsOne([]);
    }
  }
}
