/** Verification of the whole ledger: the line-by-line loop and the declarative reading of its verdict. */
module Chain {
  import opened Unicode
  import opened Values
  import opened Platform
  import opened Receipts
  import opened Ledger

  datatype ChainError =
    | LedgerNotFound
    | MalformedJson
    | MissingHash
    | MissingReceipt
    | LinkBroken
    | HashMismatch
    | SignatureFailed
    | SignatureThrew
    | UntrustedKey
    | MissingSignatureOrKey

  datatype LineError = LineError(index: nat, error: ChainError)

  // ---------------------------------------------------------------- one entry

  /** Findings on one entry: the verifier throws, passes over the entry, or goes on from its hash. */
  datatype Checked = Throws | Skipped(error: ChainError) | Checked(errors: seq<ChainError>)

  function HashErrors(p: Platform, receipt: Json): seq<ChainError> {
    if StrictEq(Str(p.sha256(Payload(receipt))), Get(receipt, RECEIPT_HASH)) then [] else [HashMismatch]
  }

  function SignatureErrors(p: Platform, trusted: seq<Json>, receipt: Json): seq<ChainError> {
    if Truthy(Get(receipt, SIGNATURE)) && Truthy(Get(receipt, PUBLIC_KEY)) then
      (match p.verify(Get(receipt, PUBLIC_KEY), Payload(receipt), Get(receipt, SIGNATURE))
       case Valid => []
       case Invalid => [SignatureFailed]
       case Threw => [SignatureThrew])
      + if Includes(trusted, Get(receipt, PUBLIC_KEY)) then [] else [UntrustedKey]
    else [MissingSignatureOrKey]
  }

  /** A mismatch message takes a substring of the stored hash, or of the key: neither may be other than a string. */
  predicate MessageThrows(p: Platform, trusted: seq<Json>, receipt: Json) {
    || (HashErrors(p, receipt) != [] && !Get(receipt, RECEIPT_HASH).Str?)
    || (UntrustedKey in SignatureErrors(p, trusted, receipt) && !Get(receipt, PUBLIC_KEY).Str?)
  }

  function CheckEntry(p: Platform, trusted: seq<Json>, entry: Json, previousHash: Json): Checked {
    if entry.Null? then Throws
    else if !Truthy(Get(entry, RECEIPT_HASH)) then Skipped(MissingHash)
    else if !Truthy(Get(entry, RECEIPT)) then Skipped(MissingReceipt)
    else if MessageThrows(p, trusted, Get(entry, RECEIPT)) then Throws
    else
      Checked(
        (if StrictEq(Get(entry, PREVIOUS_RECEIPT_HASH), previousHash) then [] else [LinkBroken])
        + HashErrors(p, Get(entry, RECEIPT))
        + SignatureErrors(p, trusted, Get(entry, RECEIPT)))
  }

  /** The receipt stands on its own: its hash recomputes, its signature verifies, its key is trusted. */
  predicate ReceiptSound(p: Platform, trusted: seq<Json>, receipt: Json) {
    && Get(receipt, RECEIPT_HASH) == Str(p.sha256(Payload(receipt)))
    && Truthy(Get(receipt, SIGNATURE)) && Truthy(Get(receipt, PUBLIC_KEY))
    && p.verify(Get(receipt, PUBLIC_KEY), Payload(receipt), Get(receipt, SIGNATURE)) == Valid
    && Includes(trusted, Get(receipt, PUBLIC_KEY))
  }

  predicate EntryOk(p: Platform, trusted: seq<Json>, entry: Json, previousHash: Json) {
    && Truthy(Get(entry, RECEIPT_HASH)) && Truthy(Get(entry, RECEIPT))
    && StrictEq(Get(entry, PREVIOUS_RECEIPT_HASH), previousHash)
    && ReceiptSound(p, trusted, Get(entry, RECEIPT))
  }

  lemma CheckEntryExact(p: Platform, trusted: seq<Json>, entry: Json, previousHash: Json)
    ensures CheckEntry(p, trusted, entry, previousHash) == Checked([]) <==> EntryOk(p, trusted, entry, previousHash)
  {
  }

  // ---------------------------------------------------------------- the walk over the lines

  datatype Walked = Done(errors: seq<LineError>) | Crashed

  function AtLine(index: nat, errors: seq<ChainError>): seq<LineError> {
    seq(|errors|, i requires 0 <= i < |errors| => LineError(index, errors[i]))
  }

  function WithErrors(errors: seq<LineError>, rest: Walked): Walked {
    match rest
    case Done(more) => Done(errors + more)
    case Crashed => Crashed
  }

  /** The errors found on an entry; none when the verifier throws. */
  function Found(c: Checked): seq<ChainError> {
    match c
    case Throws => []
    case Skipped(error) => [error]
    case Checked(errors) => errors
  }

  /** An entry that is passed over leaves the expected link alone. */
  function NextHash(entry: Json, previousHash: Json): Json {
    if Truthy(Get(entry, RECEIPT_HASH)) && Truthy(Get(entry, RECEIPT)) then Get(entry, RECEIPT_HASH) else previousHash
  }

  function Walk(p: Platform, trusted: seq<Json>, lines: seq<Text>, i: nat, previousHash: Json): Walked
    requires i <= |lines|
    decreases |lines| - i
  {
    if i == |lines| then Done([])
    else if Trim(lines[i]) == [] then Walk(p, trusted, lines, i + 1, previousHash)
    else
      match p.parse(Trim(lines[i]))
      case None => Done([LineError(i + 1, MalformedJson)])
      case Some(entry) =>
        var checked := CheckEntry(p, trusted, entry, previousHash);
        if checked.Throws? then Crashed
        else WithErrors(AtLine(i + 1, Found(checked)), Walk(p, trusted, lines, i + 1, NextHash(entry, previousHash)))
  }

  datatype ChainReport = Report(valid: bool, totalRecords: nat, errors: seq<LineError>) | Threw

  function ReportOf(p: Platform, trusted: seq<Json>, present: bool, content: Text): ChainReport {
    if !present then Report(false, 0, [LineError(0, LedgerNotFound)])
    else if Trim(content) == [] then Report(true, 0, [])
    else
      match Walk(p, trusted, Lines(Trim(content)), 0, Null)
      case Crashed => ChainReport.Threw
      case Done(errors) => Report(errors == [], |Rows(Lines(Trim(content)))|, errors)
  }

  /** The hash the entry at `k` must link to, in a chain that goes on from `start`. */
  function LinkBefore(entries: seq<Json>, k: nat, start: Json): Json
    requires k < |entries|
  {
    if k == 0 then start else Get(entries[k - 1], RECEIPT_HASH)
  }

  predicate LinkedAt(p: Platform, trusted: seq<Json>, entries: seq<Json>, k: nat, start: Json)
    requires k < |entries|
  {
    EntryOk(p, trusted, entries[k], LinkBefore(entries, k, start))
  }

  predicate LinkedFrom(p: Platform, trusted: seq<Json>, entries: seq<Json>, start: Json) {
    forall k {:trigger LinkedAt(p, trusted, entries, k, start)} | 0 <= k < |entries| ::
      LinkedAt(p, trusted, entries, k, start)
  }

  /** Every entry is well structured, linked to the one before it, and holds a sound receipt. */
  predicate Accepted(p: Platform, trusted: seq<Json>, entries: seq<Json>) {
    LinkedFrom(p, trusted, entries, Null)
  }

  lemma LinkedFromCons(p: Platform, trusted: seq<Json>, entry: Json, rest: seq<Json>, start: Json)
    ensures LinkedFrom(p, trusted, [entry] + rest, start) <==>
      EntryOk(p, trusted, entry, start) && LinkedFrom(p, trusted, rest, Get(entry, RECEIPT_HASH))
  {
    var all, hash := [entry] + rest, Get(entry, RECEIPT_HASH);
    forall k | 0 <= k < |rest|
      ensures rest[k] == all[k + 1] && LinkBefore(rest, k, hash) == LinkBefore(all, k + 1, start)
    {
    }
    if LinkedFrom(p, trusted, all, start) {
      assert LinkedAt(p, trusted, all, 0, start);
      forall k | 0 <= k < |rest| ensures LinkedAt(p, trusted, rest, k, hash) {
        assert LinkedAt(p, trusted, all, k + 1, start);
      }
    }
    if EntryOk(p, trusted, entry, start) && LinkedFrom(p, trusted, rest, hash) {
      forall k | 0 <= k < |all| ensures LinkedAt(p, trusted, all, k, start) {
        if k > 0 {
          assert LinkedAt(p, trusted, rest, k - 1, hash);
        }
      }
    }
  }

  lemma WalkExactStep(p: Platform, trusted: seq<Json>, lines: seq<Text>, i: nat, previousHash: Json)
    requires i < |lines| && Trim(lines[i]) != [] && p.parse(Trim(lines[i])).Some?
    requires var next := NextHash(p.parse(Trim(lines[i])).value, previousHash);
      Walk(p, trusted, lines, i + 1, next) == Done([]) <==>
        && ReadFrom(p, lines, i + 1).Entries?
        && LinkedFrom(p, trusted, ReadFrom(p, lines, i + 1).entries, next)
    ensures Walk(p, trusted, lines, i, previousHash) == Done([]) <==>
      && ReadFrom(p, lines, i).Entries?
      && LinkedFrom(p, trusted, ReadFrom(p, lines, i).entries, previousHash)
  {
    var entry, read := p.parse(Trim(lines[i])).value, ReadFrom(p, lines, i + 1);
    CheckEntryExact(p, trusted, entry, previousHash);
    if read.Entries? {
      LinkedFromCons(p, trusted, entry, read.entries, previousHash);
    }
  }

  lemma {:induction false} WalkExact(p: Platform, trusted: seq<Json>, lines: seq<Text>, i: nat, previousHash: Json)
    requires i <= |lines|
    ensures Walk(p, trusted, lines, i, previousHash) == Done([]) <==>
      && ReadFrom(p, lines, i).Entries?
      && LinkedFrom(p, trusted, ReadFrom(p, lines, i).entries, previousHash)
    decreases |lines| - i
  {
    if i < |lines| {
      var row := Trim(lines[i]);
      if row == [] {
        WalkExact(p, trusted, lines, i + 1, previousHash);
      } else if p.parse(row).Some? {
        WalkExact(p, trusted, lines, i + 1, NextHash(p.parse(row).value, previousHash));
        WalkExactStep(p, trusted, lines, i, previousHash);
      }
    }
  }

  /** The verdict in full: valid exactly when the file is there, every non-blank line parses, and the
      entries form an accepted chain. */
  lemma ReportExact(p: Platform, trusted: seq<Json>, present: bool, content: Text)
    ensures var r := ReportOf(p, trusted, present, content);
      r.Report? && r.valid <==>
        && present
        && ReadContent(p, content).Entries?
        && Accepted(p, trusted, ReadContent(p, content).entries)
    ensures var r := ReportOf(p, trusted, present, content);
      r.Report? && r.valid ==> r.errors == [] && r.totalRecords == |ReadContent(p, content).entries|
  {
    var lines := Lines(Trim(content));
    WalkExact(p, trusted, lines, 0, Null);
    if Trim(content) == [] {
      EmptyReads(p);
    }
    RowCount(p, content);
  }

  lemma RowCount(p: Platform, content: Text)
    ensures ReadContent(p, content).Entries?
      ==> |Rows(Lines(Trim(content)))| == |ReadContent(p, content).entries|
  {
    ReadFromRows(p, Lines(Trim(content)), 0);
    assert Lines(Trim(content))[0..] == Lines(Trim(content));
    ParseAllLength(p, Rows(Lines(Trim(content))));
  }

  /** The loop over the ledger's lines. */
  method VerifyChain(p: Platform, trusted: seq<Json>, file: LedgerFile) returns (r: ChainReport)
    ensures r == ReportOf(p, trusted, file.present, file.content)
    ensures r.Report? && r.valid <==>
      && file.present
      && ReadContent(p, file.content).Entries?
      && Accepted(p, trusted, ReadContent(p, file.content).entries)
    ensures r.Report? ==> (r.valid <==> r.errors == [])
  {
    ReportExact(p, trusted, file.present, file.content);
    if !file.present {
      return Report(false, 0, [LineError(0, LedgerNotFound)]);
    }
    var content := Trim(file.content);
    if content == [] {
      return Report(true, 0, []);
    }
    var lines := Lines(content);
    var errors: seq<LineError> := [];
    var previousHash := Null;
    for i := 0 to |lines|
      invariant Walk(p, trusted, lines, 0, Null) == WithErrors(errors, Walk(p, trusted, lines, i, previousHash))
    {
      var line := Trim(lines[i]);
      if line == [] {
        continue;
      }
      var parsed := p.parse(line);
      if parsed.None? {
        errors := errors + [LineError(i + 1, MalformedJson)];
        break;
      }
      var entry := parsed.value;
      match CheckEntry(p, trusted, entry, previousHash)
      case Throws =>
        return ChainReport.Threw;
      case Skipped(error) =>
        WithErrorsTwice(errors, AtLine(i + 1, [error]), Walk(p, trusted, lines, i + 1, previousHash));
        assert AtLine(i + 1, [error]) == [LineError(i + 1, error)];
        errors := errors + [LineError(i + 1, error)];
      case Checked(found) =>
        WithErrorsTwice(errors, AtLine(i + 1, found), Walk(p, trusted, lines, i + 1, Get(entry, RECEIPT_HASH)));
        errors := errors + AtLine(i + 1, found);
        previousHash := Get(entry, RECEIPT_HASH);
    }
    var totalRecords := |Rows(lines)|;
    return Report(errors == [], totalRecords, errors);
  }

  lemma WithErrorsTwice(a: seq<LineError>, b: seq<LineError>, w: Walked)
    ensures WithErrors(a, WithErrors(b, w)) == WithErrors(a + b, w)
  {
    if w.Done? {
      Assoc(a, b, w.errors);
    }
  }

  // ---------------------------------------------------------------- what the error list says

  /** The line numbers of the errors climb, and each names a non-blank line at or after `i`. */
  predicate LinesClimb(errors: seq<LineError>, lines: seq<Text>, i: nat) {
    && (forall k | 0 <= k < |errors| ::
          i < errors[k].index <= |lines| && Trim(lines[errors[k].index - 1]) != [])
    && (forall j, k | 0 <= j < k < |errors| :: errors[j].index <= errors[k].index)
  }

  /** A malformed line is the last thing reported. */
  predicate StopsAtMalformed(errors: seq<LineError>) {
    forall k | 0 <= k < |errors| :: errors[k].error == MalformedJson ==> k == |errors| - 1
  }

  lemma {:induction false} ErrorsInOrder(p: Platform, trusted: seq<Json>, lines: seq<Text>, i: nat, previousHash: Json)
    requires i <= |lines|
    ensures match Walk(p, trusted, lines, i, previousHash)
            case Done(errors) => LinesClimb(errors, lines, i) && StopsAtMalformed(errors)
            case Crashed => true
    decreases |lines| - i
  {
    if i < |lines| {
      var row := Trim(lines[i]);
      if row == [] {
        ErrorsInOrder(p, trusted, lines, i + 1, previousHash);
      } else if p.parse(row).Some? {
        var entry := p.parse(row).value;
        var found, next := Found(CheckEntry(p, trusted, entry, previousHash)), NextHash(entry, previousHash);
        FoundWellFormed(p, trusted, entry, previousHash);
        ErrorsInOrder(p, trusted, lines, i + 1, next);
        ErrorsAfter(lines, i, found, Walk(p, trusted, lines, i + 1, next));
      }
    }
  }

  lemma FoundWellFormed(p: Platform, trusted: seq<Json>, entry: Json, previousHash: Json)
    ensures MalformedJson !in Found(CheckEntry(p, trusted, entry, previousHash))
  {
  }

  lemma ErrorsAfter(lines: seq<Text>, i: nat, found: seq<ChainError>, rest: Walked)
    requires i < |lines| && Trim(lines[i]) != [] && MalformedJson !in found
    requires rest.Done? ==> LinesClimb(rest.errors, lines, i + 1) && StopsAtMalformed(rest.errors)
    ensures match WithErrors(AtLine(i + 1, found), rest)
            case Done(errors) => LinesClimb(errors, lines, i) && StopsAtMalformed(errors)
            case Crashed => true
  {
    if rest.Done? {
      var n, all := |found|, AtLine(i + 1, found) + rest.errors;
      assert forall k | 0 <= k < n :: all[k] == LineError(i + 1, found[k]);
      assert forall k | n <= k < |all| :: all[k] == rest.errors[k - n];
    }
  }

  function ErrorsOff(errors: seq<LineError>, line: nat): seq<LineError> {
    if errors == [] then []
    else (if errors[0].index == line then [] else [errors[0]]) + ErrorsOff(errors[1..], line)
  }

  lemma {:induction false} ErrorsOffConcat(a: seq<LineError>, b: seq<LineError>, line: nat)
    ensures ErrorsOff(a + b, line) == ErrorsOff(a, line) + ErrorsOff(b, line)
  {
    if a == [] {
      assert a + b == b;
    } else {
      ErrorsOffConcat(a[1..], b, line);
      assert (a + b)[1..] == a[1..] + b;
      Assoc(if a[0].index == line then [] else [a[0]], ErrorsOff(a[1..], line), ErrorsOff(b, line));
    }
  }

  lemma {:induction false} ErrorsOffOwnLine(line: nat, found: seq<ChainError>)
    ensures ErrorsOff(AtLine(line, found), line) == []
  {
    if found != [] {
      ErrorsOffOwnLine(line, found[1..]);
      assert AtLine(line, found)[1..] == AtLine(line, found[1..]);
    }
  }

  /** The two rows parse to entries that differ at most in the receipt they hold. */
  predicate ReceiptEdit(p: Platform, row: Text, row': Text) {
    && row != [] && row' != []
    && p.parse(row).Some? && p.parse(row').Some?
    && var e, e' := p.parse(row).value, p.parse(row').value;
       && !e.Null? && !e'.Null?
       && Get(e, RECEIPT_HASH) == Get(e', RECEIPT_HASH)
       && Get(e, PREVIOUS_RECEIPT_HASH) == Get(e', PREVIOUS_RECEIPT_HASH)
       && Truthy(Get(e, RECEIPT)) && Truthy(Get(e', RECEIPT))
  }

  /** Editing the receipt held on one line changes the errors of that line and of no other. */
  lemma {:induction false} EditIsLocal(p: Platform, trusted: seq<Json>, lines: seq<Text>, lines': seq<Text>, at: nat,
                                       i: nat, previousHash: Json)
    requires |lines| == |lines'| && at < |lines| && i <= |lines|
    requires forall k | 0 <= k < |lines| && k != at :: lines[k] == lines'[k]
    requires ReceiptEdit(p, Trim(lines[at]), Trim(lines'[at]))
    requires Walk(p, trusted, lines, i, previousHash).Done? && Walk(p, trusted, lines', i, previousHash).Done?
    ensures ErrorsOff(Walk(p, trusted, lines, i, previousHash).errors, at + 1)
         == ErrorsOff(Walk(p, trusted, lines', i, previousHash).errors, at + 1)
    decreases |lines| - i
  {
    if i < |lines| {
      var row := Trim(lines[i]);
      if row == [] {
        EditIsLocal(p, trusted, lines, lines', at, i + 1, previousHash);
      } else if p.parse(row).Some? {
        if i == at {
          EditKeepsNext(p, row, Trim(lines'[i]), previousHash);
        }
        var next := NextHash(p.parse(row).value, previousHash);
        WalkGoesOn(p, trusted, lines, i, previousHash);
        WalkGoesOn(p, trusted, lines', i, previousHash);
        EditIsLocal(p, trusted, lines, lines', at, i + 1, next);
        EditStep(p, trusted, lines, lines', at, i, previousHash, next);
      }
    }
  }

  /** No message about the receipt on the row throws. */
  predicate Quiet(p: Platform, trusted: seq<Json>, row: Text) {
    p.parse(row).Some? ==> !MessageThrows(p, trusted, Get(p.parse(row).value, RECEIPT))
  }

  /** The lines are the same but for the receipt held on one, and no message about that receipt throws, before or
      after. */
  predicate QuietlyEdited(p: Platform, trusted: seq<Json>, lines: seq<Text>, lines': seq<Text>, at: nat) {
    && |lines| == |lines'|
    && forall k | 0 <= k < |lines| :: QuietLine(p, trusted, lines[k], lines'[k], k == at)
  }

  predicate QuietLine(p: Platform, trusted: seq<Json>, line: Text, line': Text, edited: bool) {
    if edited then
      ReceiptEdit(p, Trim(line), Trim(line')) && Quiet(p, trusted, Trim(line)) && Quiet(p, trusted, Trim(line'))
    else line == line'
  }

  /** And unless the message about one of the two receipts throws, both verifications throw or neither does. */
  lemma {:induction false} EditThrowsAlike(p: Platform, trusted: seq<Json>, lines: seq<Text>, lines': seq<Text>,
                                           at: nat, i: nat, previousHash: Json)
    requires QuietlyEdited(p, trusted, lines, lines', at) && i <= |lines|
    ensures Walk(p, trusted, lines, i, previousHash).Done? <==> Walk(p, trusted, lines', i, previousHash).Done?
    decreases |lines| - i
  {
    if i < |lines| {
      EditThrowsAlike(p, trusted, lines, lines', at, i + 1, NextFrom(p, lines[i], previousHash));
      EditThrowsStep(p, trusted, lines, lines', i, i == at, previousHash);
    }
  }

  /** The link expected after a line. */
  function NextFrom(p: Platform, line: Text, previousHash: Json): Json {
    if Trim(line) != [] && p.parse(Trim(line)).Some? then NextHash(p.parse(Trim(line)).value, previousHash)
    else previousHash
  }

  lemma EditThrowsStep(p: Platform, trusted: seq<Json>, lines: seq<Text>, lines': seq<Text>, i: nat, edited: bool,
                       previousHash: Json)
    requires |lines| == |lines'| && i < |lines| && QuietLine(p, trusted, lines[i], lines'[i], edited)
    requires var next := NextFrom(p, lines[i], previousHash);
      Walk(p, trusted, lines, i + 1, next).Done? <==> Walk(p, trusted, lines', i + 1, next).Done?
    ensures Walk(p, trusted, lines, i, previousHash).Done? <==> Walk(p, trusted, lines', i, previousHash).Done?
  {
    if Trim(lines[i]) != [] && p.parse(Trim(lines[i])).Some? {
      LinesAlike(p, trusted, lines[i], lines'[i], edited, previousHash);
      WalkDone(p, trusted, lines, i, previousHash);
      WalkDone(p, trusted, lines', i, previousHash);
    }
  }

  lemma QuietEdit(p: Platform, trusted: seq<Json>, row: Text, row': Text, previousHash: Json)
    requires ReceiptEdit(p, row, row') && Quiet(p, trusted, row) && Quiet(p, trusted, row')
    ensures !CheckEntry(p, trusted, p.parse(row).value, previousHash).Throws?
    ensures !CheckEntry(p, trusted, p.parse(row').value, previousHash).Throws?
    ensures NextHash(p.parse(row).value, previousHash) == NextHash(p.parse(row').value, previousHash)
  {
    QuietEntry(p, trusted, p.parse(row).value, previousHash);
    QuietEntry(p, trusted, p.parse(row').value, previousHash);
  }

  lemma LinesAlike(p: Platform, trusted: seq<Json>, line: Text, line': Text, edited: bool, previousHash: Json)
    requires QuietLine(p, trusted, line, line', edited)
    requires p.parse(Trim(line)).Some?
    ensures p.parse(Trim(line')).Some? && (Trim(line) == [] <==> Trim(line') == [])
    ensures var e, e' := p.parse(Trim(line)).value, p.parse(Trim(line')).value;
      && (CheckEntry(p, trusted, e, previousHash).Throws? <==> CheckEntry(p, trusted, e', previousHash).Throws?)
      && NextHash(e, previousHash) == NextHash(e', previousHash)
  {
    if edited {
      QuietEdit(p, trusted, Trim(line), Trim(line'), previousHash);
    }
  }

  lemma QuietEntry(p: Platform, trusted: seq<Json>, entry: Json, previousHash: Json)
    requires !entry.Null? && !MessageThrows(p, trusted, Get(entry, RECEIPT))
    ensures !CheckEntry(p, trusted, entry, previousHash).Throws?
  {
  }

  lemma WalkDone(p: Platform, trusted: seq<Json>, lines: seq<Text>, i: nat, previousHash: Json)
    requires i < |lines| && Trim(lines[i]) != [] && p.parse(Trim(lines[i])).Some?
    ensures var e := p.parse(Trim(lines[i])).value;
      Walk(p, trusted, lines, i, previousHash).Done? <==>
        && !CheckEntry(p, trusted, e, previousHash).Throws?
        && Walk(p, trusted, lines, i + 1, NextHash(e, previousHash)).Done?
  {
  }

  lemma WalkGoesOn(p: Platform, trusted: seq<Json>, lines: seq<Text>, i: nat, previousHash: Json)
    requires i < |lines| && Trim(lines[i]) != [] && p.parse(Trim(lines[i])).Some?
    requires Walk(p, trusted, lines, i, previousHash).Done?
    ensures Walk(p, trusted, lines, i + 1, NextHash(p.parse(Trim(lines[i])).value, previousHash)).Done?
  {
  }

  lemma EditStep(p: Platform, trusted: seq<Json>, lines: seq<Text>, lines': seq<Text>, at: nat,
                 i: nat, previousHash: Json, next: Json)
    requires |lines| == |lines'| && i < |lines| && (i != at ==> lines[i] == lines'[i])
    requires Trim(lines[i]) != [] && p.parse(Trim(lines[i])).Some?
    requires Trim(lines'[i]) != [] && p.parse(Trim(lines'[i])).Some?
    requires next == NextHash(p.parse(Trim(lines[i])).value, previousHash)
    requires next == NextHash(p.parse(Trim(lines'[i])).value, previousHash)
    requires Walk(p, trusted, lines, i, previousHash).Done? && Walk(p, trusted, lines', i, previousHash).Done?
    requires Walk(p, trusted, lines, i + 1, next).Done? && Walk(p, trusted, lines', i + 1, next).Done?
    requires ErrorsOff(Walk(p, trusted, lines, i + 1, next).errors, at + 1)
          == ErrorsOff(Walk(p, trusted, lines', i + 1, next).errors, at + 1)
    ensures ErrorsOff(Walk(p, trusted, lines, i, previousHash).errors, at + 1)
         == ErrorsOff(Walk(p, trusted, lines', i, previousHash).errors, at + 1)
  {
    WalkStep(p, trusted, lines, i, previousHash, at + 1);
    WalkStep(p, trusted, lines', i, previousHash, at + 1);
  }

  lemma EditKeepsNext(p: Platform, row: Text, row': Text, previousHash: Json)
    requires ReceiptEdit(p, row, row')
    ensures NextHash(p.parse(row).value, previousHash) == NextHash(p.parse(row').value, previousHash)
  {
  }

  lemma WalkStep(p: Platform, trusted: seq<Json>, lines: seq<Text>, i: nat, previousHash: Json, line: nat)
    requires i < |lines| && Trim(lines[i]) != [] && p.parse(Trim(lines[i])).Some?
    requires Walk(p, trusted, lines, i, previousHash).Done?
    ensures var e := p.parse(Trim(lines[i])).value;
            var rest := Walk(p, trusted, lines, i + 1, NextHash(e, previousHash));
            && rest.Done?
            && ErrorsOff(Walk(p, trusted, lines, i, previousHash).errors, line)
            == (if line == i + 1 then []
                else ErrorsOff(AtLine(i + 1, Found(CheckEntry(p, trusted, e, previousHash))), line))
               + ErrorsOff(rest.errors, line)
  {
    var e := p.parse(Trim(lines[i])).value;
    var found := Found(CheckEntry(p, trusted, e, previousHash));
    var rest := Walk(p, trusted, lines, i + 1, NextHash(e, previousHash));
    ErrorsOffConcat(AtLine(i + 1, found), rest.errors, line);
    ErrorsOffOwnLine(i + 1, found);
  }
}
