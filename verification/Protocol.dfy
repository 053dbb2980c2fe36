/** The whole protocol step: read the tail, build and sign, spend the nonce, append, verify the chain. */
module Protocol {
  import opened Unicode
  import opened Values
  import opened Canonical
  import opened Platform
  import opened Receipts
  import opened Ledger
  import opened Chain
  import opened HashChain
  import opened Tamper
  import opened Runs
  import opened Gate
  import opened Construction
  import opened Nonces

  /** What one run is given: the new receipt's fields and the time of the append. */
  datatype Input = Input(
    stamp: Stamp,
    intentHash: Text,
    executionHash: Text,
    validation: Json,
    decision: Json,
    approval: Json,
    now: Text
  )

  /** The local unit: its configured id and its private key. */
  datatype MusUnit = MusUnit(unitId: Json, key: Text)

  datatype Outcome =
    | LedgerThrew
    | NonceReplayed
    | Drafted(receipt: Json)
    | AppendThrew(reason: Appended)
    | VerifyThrew(entry: Json)
    | Recorded(entry: Json, chain: ChainReport)

  function DraftOf(unit: MusUnit, input: Input, previousReceiptHash: Json): Json {
    DraftBody(unit.unitId, input.stamp, input.intentHash, input.executionHash, input.validation, input.decision,
              input.approval, previousReceiptHash)
  }

  function ReceiptFor(p: Platform, unit: MusUnit, input: Input, previousReceiptHash: Json): Json {
    SignReceiptBody(p, unit.key, DraftOf(unit, input, previousReceiptHash))
  }

  /** A draft receipt says what it was given, under the unit's id, and is signed with the unit's key. */
  lemma DraftSays(p: Platform, unit: MusUnit, input: Input, previousReceiptHash: Json)
    requires Proper(unit.unitId) && Proper(input.validation) && Proper(input.decision) && Proper(input.approval)
    requires Proper(previousReceiptHash)
    requires Defined(input.validation) && Defined(input.decision) && !input.approval.Undef?
    ensures var receipt := ReceiptFor(p, unit, input, previousReceiptHash);
      && HeaderSays(receipt, input.stamp, input.intentHash, input.executionHash, previousReceiptHash)
      && Get(receipt, VALIDATION) == input.validation
      && Get(receipt, DECISION) == input.decision
      && Get(receipt, APPROVAL) == input.approval
      && Get(receipt, MUS_UNIT_ID) == unit.unitId
      && SealSays(p, receipt, unit.key, Legacy(DraftOf(unit, input, previousReceiptHash)))
  {
    AssembledSurvives(input.stamp, input.intentHash, input.executionHash, input.validation, input.decision,
                      input.approval, previousReceiptHash, Some(unit.unitId));
    AssembledRead(p, unit.key, input.stamp, input.intentHash, input.executionHash, input.validation, input.decision,
                  input.approval, previousReceiptHash, Some(unit.unitId));
    SignedSeal(p, unit.key, DraftOf(unit, input, previousReceiptHash));
  }

  /** The two files the engine keeps. */
  datatype World = World(content: Text, used: seq<Json>)

  /** The files after one step. */
  function Step(p: Platform, w: World, unit: MusUnit, input: Input, append: bool): World {
    match TailOf(ReadContent(p, w.content))
    case NoTail => w
    case Tail(hash) =>
      var receipt := ReceiptFor(p, unit, input, hash);
      var nonce := Get(Get(receipt, APPROVAL), NONCE);
      if Includes(w.used, nonce) then w
      else
        World(if append then AfterAppend(p, w.content, receipt, input.now) else w.content,
              w.used + [Persisted(nonce)])
  }

  // ---------------------------------------------------------------- what every step keeps

  function LedgerNonce(entry: Json): Json {
    Get(Get(ReceiptOf(entry), APPROVAL), NONCE)
  }

  /** The nonces of the ledger's receipts are pairwise distinct and all in the store. */
  predicate NoncesSpent(entries: seq<Json>, used: seq<Json>) {
    && (forall i | 0 <= i < |entries| :: LedgerNonce(entries[i]).Str? && Includes(used, LedgerNonce(entries[i])))
    && (forall i, j | 0 <= i < j < |entries| :: LedgerNonce(entries[i]) != LedgerNonce(entries[j]))
  }

  predicate WorldOk(p: Platform, trusted: seq<Json>, w: World) {
    Grown(p, trusted, w.content) && NoncesSpent(ReadContent(p, w.content).entries, w.used)
  }

  predicate FieldOk(v: Json) { Proper(v) && Defined(v) && Writable(v) }

  /** A unit with a truthy id and a trusted key, and fields without `undefined` whose approval has a string nonce. */
  predicate InputOk(p: Platform, trusted: seq<Json>, unit: MusUnit, input: Input) {
    && FieldOk(input.validation) && FieldOk(input.decision) && FieldOk(input.approval) && FieldOk(unit.unitId)
    && Get(input.approval, NONCE).Str?
    && Truthy(unit.unitId)
    && Includes(trusted, Str(p.publicKey(unit.key)))
  }

  lemma DraftWritable(unit: MusUnit, input: Input, hash: Json)
    requires Writable(input.validation) && Writable(input.decision) && Writable(input.approval)
    requires Writable(unit.unitId) && Writable(hash)
    ensures Writable(DraftOf(unit, input, hash))
  {
    NamedFields();
    assert Writable(ChainReferenceJson(hash));
    BuildBodyWritable(
      [Str(input.stamp.receiptId), Str(input.stamp.timestamp), Str(input.intentHash), Str(input.executionHash),
       input.validation, input.decision, input.approval, ChainReferenceJson(hash)],
      Some(unit.unitId));
  }

  /** Built against the tail it just read, a receipt is genuine and is never rejected. */
  lemma ReceiptForTail(p: Platform, trusted: seq<Json>, content: Text, unit: MusUnit, input: Input)
    requires SignsSoundly(p) && Grown(p, trusted, content) && InputOk(p, trusted, unit, input)
    ensures TailOf(ReadContent(p, content)).Tail?
    ensures var receipt := ReceiptFor(p, unit, input, TailOf(ReadContent(p, content)).hash);
      && Genuine(p, trusted, receipt)
      && AppendOutcome(p, content, receipt, input.now).Appended?
      && Get(receipt, APPROVAL) == input.approval
      && Proper(receipt)
  {
    GrownTail(p, trusted, content);
    var hash := TailOf(ReadContent(p, content)).hash;
    var body := DraftOf(unit, input, hash);
    DraftSurvives(unit.unitId, input.stamp, input.intentHash, input.executionHash, input.validation, input.decision,
                  input.approval, hash);
    DraftWritable(unit, input, hash);
    assert GenuineBy(p, trusted, ReceiptFor(p, unit, input, hash), unit.key, body);
    ReceiptFields(p, unit.key, body);
  }

  lemma StoredNonce(receipt: Json, now: Text, approval: Json)
    requires Proper(receipt) && Get(receipt, APPROVAL) == approval && Get(approval, NONCE).Str?
    ensures LedgerNonce(StoredEntry(receipt, now)) == Get(approval, NONCE)
  {
    StoredEntrySpec(receipt, now);
    StoredGet(receipt, APPROVAL);
    ProperGet(receipt, APPROVAL);
    StoredGet(approval, NONCE);
  }

  lemma NoncesSpentSnoc(entries: seq<Json>, used: seq<Json>, e: Json)
    requires NoncesSpent(entries, used) && LedgerNonce(e).Str? && !Includes(used, LedgerNonce(e))
    ensures NoncesSpent(entries + [e], used + [LedgerNonce(e)])
  {
    var all, nonce := entries + [e], LedgerNonce(e);
    forall i | 0 <= i < |all|
      ensures LedgerNonce(all[i]).Str? && Includes(used + [nonce], LedgerNonce(all[i]))
      ensures i < |entries| ==> LedgerNonce(all[i]) != nonce
    {
      IncludesSnoc(used, nonce, LedgerNonce(all[i]));
      if i < |entries| {
        assert all[i] == entries[i];
      }
    }
  }

  lemma NoncesSpentMore(entries: seq<Json>, used: seq<Json>, nonce: Json)
    requires NoncesSpent(entries, used)
    ensures NoncesSpent(entries, used + [nonce])
  {
    forall i | 0 <= i < |entries| ensures Includes(used + [nonce], LedgerNonce(entries[i])) {
      IncludesSnoc(used, nonce, LedgerNonce(entries[i]));
    }
  }

  /** Every step keeps the ledger accepted and the nonces spent; with `append` it adds one entry exactly
      when the nonce is new, and never otherwise. */
  lemma StepKeepsWorld(p: Platform, trusted: seq<Json>, w: World, unit: MusUnit, input: Input, append: bool)
    requires ReadsBack(p) && SignsSoundly(p) && WorldOk(p, trusted, w) && InputOk(p, trusted, unit, input)
    ensures var w' := Step(p, w, unit, input, append);
      && WorldOk(p, trusted, w')
      && w.used <= w'.used
      && ReadContent(p, w.content).entries <= ReadContent(p, w'.content).entries
      && |ReadContent(p, w'.content).entries| == |ReadContent(p, w.content).entries|
         + (if append && !Includes(w.used, Get(input.approval, NONCE)) then 1 else 0)
  {
    ReceiptForTail(p, trusted, w.content, unit, input);
    var receipt := ReceiptFor(p, unit, input, TailOf(ReadContent(p, w.content)).hash);
    var nonce, es := Get(input.approval, NONCE), ReadContent(p, w.content).entries;
    if !Includes(w.used, nonce) {
      if append {
        AppendKeepsGrown(p, trusted, w.content, receipt, input.now);
        StoredNonce(receipt, input.now, input.approval);
        NoncesSpentSnoc(es, w.used, StoredEntry(receipt, input.now));
      } else {
        NoncesSpentMore(es, w.used, nonce);
      }
    }
  }

  /** The world after a run of steps, each with its unit, input and choice to append. */
  datatype Call = Call(unit: MusUnit, input: Input, append: bool)

  function RunSteps(p: Platform, w: World, calls: seq<Call>): World
    decreases |calls|
  {
    if calls == [] then w
    else RunSteps(p, Step(p, w, calls[0].unit, calls[0].input, calls[0].append), calls[1..])
  }

  lemma {:induction false} RunStepsKeepsWorld(p: Platform, trusted: seq<Json>, w: World, calls: seq<Call>)
    requires ReadsBack(p) && SignsSoundly(p) && WorldOk(p, trusted, w)
    requires forall k | 0 <= k < |calls| :: InputOk(p, trusted, calls[k].unit, calls[k].input)
    ensures WorldOk(p, trusted, RunSteps(p, w, calls))
    ensures w.used <= RunSteps(p, w, calls).used
    decreases |calls|
  {
    if calls != [] {
      var c := calls[0];
      StepKeepsWorld(p, trusted, w, c.unit, c.input, c.append);
      RunStepsKeepsWorld(p, trusted, Step(p, w, c.unit, c.input, c.append), calls[1..]);
    }
  }

  /** From empty files, after any run: the chain verifies, and no two receipts of the ledger share a nonce. */
  lemma ProtocolRunsVerify(p: Platform, trusted: seq<Json>, calls: seq<Call>)
    requires ReadsBack(p) && SignsSoundly(p)
    requires forall k | 0 <= k < |calls| :: InputOk(p, trusted, calls[k].unit, calls[k].input)
    ensures var w := RunSteps(p, World([], []), calls);
      && ReadContent(p, w.content).Entries?
      && ReportOf(p, trusted, true, w.content) == Report(true, |ReadContent(p, w.content).entries|, [])
      && NoncesSpent(ReadContent(p, w.content).entries, w.used)
  {
    EmptyIsGrown(p, trusted);
    assert NoncesSpent([], []);
    RunStepsKeepsWorld(p, trusted, World([], []), calls);
    ReportExact(p, trusted, true, RunSteps(p, World([], []), calls).content);
  }

  /** With an id that is not truthy the very first appended receipt fails chain verification, short of a
      collision of its two payloads. */
  lemma UntruthyUnitFails(p: Platform, trusted: seq<Json>, content: Text, unit: MusUnit, input: Input, hash: Json)
    requires ReadsBack(p) && SignsSoundly(p) && Grown(p, trusted, content)
    requires FieldOk(input.validation) && FieldOk(input.decision) && FieldOk(input.approval) && FieldOk(hash)
    requires Proper(unit.unitId) && Writable(unit.unitId) && !Truthy(unit.unitId)
    requires Includes(trusted, Str(p.publicKey(unit.key)))
    requires AppendOutcome(p, content, ReceiptFor(p, unit, input, hash), input.now).Appended?
    ensures var report := ReportOf(p, trusted, true, AfterAppend(p, content, ReceiptFor(p, unit, input, hash), input.now));
      var body := DraftOf(unit, input, hash);
      report.Report? && report.valid ==> Collides(p.sha256, Payload(StoredReceipt(p, unit.key, body)), Legacy(body))
  {
    DraftSurvives(unit.unitId, input.stamp, input.intentHash, input.executionHash, input.validation, input.decision,
                  input.approval, hash);
    DraftWritable(unit, input, hash);
    AppendVerifiesExactly(p, trusted, content, unit.key, DraftOf(unit, input, hash), input.now);
  }

  // ---------------------------------------------------------------- the step itself

  ghost predicate Sound(p: Platform, trusted: seq<Json>, w: World, unit: MusUnit, input: Input) {
    ReadsBack(p) && SignsSoundly(p) && WorldOk(p, trusted, w) && InputOk(p, trusted, unit, input)
  }

  lemma StepOutcome(p: Platform, trusted: seq<Json>, w: World, unit: MusUnit, input: Input, append: bool)
    requires Sound(p, trusted, w, unit, input)
    ensures TailOf(ReadContent(p, w.content)).Tail?
    ensures var receipt := ReceiptFor(p, unit, input, TailOf(ReadContent(p, w.content)).hash);
      && Get(Get(receipt, APPROVAL), NONCE) == Get(input.approval, NONCE)
      && AppendOutcome(p, w.content, receipt, input.now).Appended?
    ensures ReadContent(p, w.content).Entries?
    ensures WorldOk(p, trusted, Step(p, w, unit, input, append))
    ensures append && !Includes(w.used, Get(input.approval, NONCE)) ==>
      ReportOf(p, trusted, true, Step(p, w, unit, input, append).content)
      == Report(true, |ReadContent(p, w.content).entries| + 1, [])
  {
    ReceiptForTail(p, trusted, w.content, unit, input);
    StepKeepsWorld(p, trusted, w, unit, input, append);
    ReportExact(p, trusted, true, Step(p, w, unit, input, append).content);
  }

  method RunRealReceiptDemo(p: Platform, trusted: seq<Json>, file: LedgerFile, store: NonceStore,
                            unit: MusUnit, input: Input, append: bool)
    returns (r: Outcome)
    modifies file, store
    ensures World(file.Contents(), store.used) == Step(p, old(World(file.Contents(), store.used)), unit, input, append)
    ensures r.Recorded? ==> append && r.chain.Report? && r.chain == ReportOf(p, trusted, true, file.content)
    ensures r.VerifyThrew? ==> append && ReportOf(p, trusted, true, file.content).Threw?
    ensures r.AppendThrew? ==> append && file.Contents() == old(file.Contents())
    ensures r.LedgerThrew? <==> TailOf(ReadContent(p, old(file.Contents()))).NoTail?
    ensures r.NonceReplayed? || r.LedgerThrew? ==> store.used == old(store.used)
    ensures !append || r.NonceReplayed? ==> file.Contents() == old(file.Contents())
    ensures !r.LedgerThrew? ==>
      var receipt := ReceiptFor(p, unit, input, TailOf(ReadContent(p, old(file.Contents()))).hash);
      && (r.NonceReplayed? <==> Includes(old(store.used), Get(Get(receipt, APPROVAL), NONCE)))
      && (r.Drafted? ==> r.receipt == receipt)
      && (r.AppendThrew? ==> r.reason == AppendOutcome(p, old(file.Contents()), receipt, input.now))
      && (r.VerifyThrew? ==> r.entry == EntryOf(receipt, input.now))
      && (r.Recorded? ==> r.entry == EntryOf(receipt, input.now))
    ensures old(Sound(p, trusted, World(file.Contents(), store.used), unit, input)) ==>
      && WorldOk(p, trusted, World(file.Contents(), store.used))
      && (r.NonceReplayed? <==> Includes(old(store.used), Get(input.approval, NONCE)))
      && (r.Drafted? <==> !append && !r.NonceReplayed?)
      && (r.Recorded? <==> append && !r.NonceReplayed?)
      && (r.Recorded? ==> r.chain == Report(true, |ReadContent(p, old(file.Contents())).entries| + 1, []))
  {
    ghost var before := World(file.Contents(), store.used);
    if Sound(p, trusted, before, unit, input) {
      StepOutcome(p, trusted, before, unit, input, append);
    }
    var tail := file.GetLastHash(p);
    if tail.NoTail? {
      return LedgerThrew;
    }
    var receipt := ReceiptFor(p, unit, input, tail.hash);
    var admitted := store.CheckAndRecordNonce(Get(Get(receipt, APPROVAL), NONCE));
    if !admitted {
      return NonceReplayed;
    }
    if !append {
      return Drafted(receipt);
    }
    var appended := file.AppendReceipt(p, receipt, input.now);
    if !appended.Appended? {
      return AppendThrew(appended);
    }
    var chain := VerifyChain(p, trusted, file);
    if chain.Threw? {
      return VerifyThrew(appended.entry);
    }
    return Recorded(appended.entry, chain);
  }
}
