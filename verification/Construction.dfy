/** Construct, append, verify: the gate's own receipts, from the builder to the chain verifier. */
module Construction {
  import opened Unicode
  import opened Values
  import opened Canonical
  import opened Platform
  import opened Receipts
  import opened Ledger
  import opened Chain
  import opened HashChain
  import opened Runs
  import opened Gate

  /** What a construction is given besides the tail of the ledger. */
  datatype Request = Request(
    key: Text,
    unit: Json,
    stamp: Stamp,
    intent: Json,
    executionInput: Json,
    approval: Json,
    validation: Validation
  )

  function BodyFor(p: Platform, r: Request, previousReceiptHash: Json): Json
    requires r.validation.Validation?
  {
    ConstructBody(p, r.unit, r.stamp, r.intent, r.executionInput, r.approval, r.validation, previousReceiptHash)
  }

  function ConstructReceipt(p: Platform, r: Request, previousReceiptHash: Json): Json
    requires r.validation.Validation?
  {
    SignReceiptBody(p, r.key, BodyFor(p, r, previousReceiptHash))
  }

  // ---------------------------------------------------------------- what a constructed receipt says

  const ALLOW: Json := Str(U("ALLOW"))
  const BLOCK: Json := Str(U("BLOCK"))

  /** The decision, the four checks and the policy are those of the gate's answer. */
  predicate ValidationSays(j: Json, v: Validation)
    requires v.Validation?
  {
    && Get(j, DECISION) == (if v.allow then ALLOW else BLOCK)
    && Get(Get(j, CHECKS), INTENT_MATCH) == Bool(v.checks.intentMatch)
    && Get(Get(j, CHECKS), CONTEXT_MATCH) == Bool(v.checks.contextMatch)
    && Get(Get(j, CHECKS), SCOPE_VALID) == Bool(v.checks.scopeValid)
    && Get(Get(j, CHECKS), EXECUTION_PATH_VALID) == Bool(v.checks.executionPathValid)
    && Get(j, POLICY_VERSION) == Str(U("1.0.0"))
  }

  /** The approval's own members, and no scope. */
  predicate ApprovalSays(j: Json, approval: Json) {
    && Get(j, APPROVAL_ID) == Get(approval, APPROVAL_ID)
    && Get(j, INTENT_HASH) == Get(approval, INTENT_HASH)
    && Get(j, AUTHORIZER) == Get(approval, AUTHORIZER)
    && Get(j, NONCE) == Get(approval, NONCE)
    && Get(j, SCOPE).Undef?
  }

  /** The receipt carries the hash of the payload, the key's signature on it, and the key. */
  predicate SealSays(p: Platform, receipt: Json, key: Text, payload: Text) {
    && Get(receipt, RECEIPT_HASH) == Str(p.sha256(payload))
    && Get(receipt, SIGNATURE) == Str(p.sign(key, payload))
    && Get(receipt, SIGNATURE_ALGORITHM) == Str(U("Ed25519"))
    && Get(receipt, PUBLIC_KEY) == Str(p.publicKey(key))
  }

  predicate HeaderSays(receipt: Json, stamp: Stamp, intentHash: Text, executionHash: Text, previousReceiptHash: Json) {
    && Get(receipt, RECEIPT_ID) == Str(stamp.receiptId)
    && Get(receipt, TIMESTAMP) == Str(stamp.timestamp)
    && Get(receipt, INTENT_HASH) == Str(intentHash)
    && Get(receipt, EXECUTION_HASH) == Str(executionHash)
    && Get(Get(receipt, CHAIN_REFERENCE), PREVIOUS_RECEIPT_HASH) == previousReceiptHash
  }

  /** A signed body, field by field. */
  lemma SignedField(p: Platform, key: Text, values: seq<Json>, unit: Option<Json>, k: nat)
    requires |values| == |BODY_KEYS| && k < |BODY_KEYS| && BodyShape(BuildBody(values, unit))
    ensures Get(SignReceiptBody(p, key, BuildBody(values, unit)), BODY_KEYS[k]) == values[k]
  {
    BuildBodySpec(values, unit);
    SignedSpec(p, key, BuildBody(values, unit), BODY_KEYS[k]);
    assert (BODY_KEYS + [MUS_UNIT_ID])[k] == BODY_KEYS[k];
  }

  lemma SignedUnit(p: Platform, key: Text, values: seq<Json>, unit: Option<Json>)
    requires |values| == |BODY_KEYS| && BodyShape(BuildBody(values, unit))
    ensures Get(SignReceiptBody(p, key, BuildBody(values, unit)), MUS_UNIT_ID)
      == if unit.Some? then unit.value else Undef
  {
    var body := BuildBody(values, unit);
    BuildBodySpec(values, unit);
    BodyKeySet();
    SignedSpec(p, key, body, MUS_UNIT_ID);
    if unit.None? {
      LookupAbsent(body.members, MUS_UNIT_ID);
    }
  }

  lemma SignedSeal(p: Platform, key: Text, body: Json)
    requires BodyShape(body)
    ensures SealSays(p, SignReceiptBody(p, key, body), key, Legacy(body))
  {
    SealSpec(p, key, body);
    assert SEAL_KEYS[0] == RECEIPT_HASH && SEAL_KEYS[1] == SIGNATURE && SEAL_KEYS[2] == SIGNATURE_ALGORITHM
      && SEAL_KEYS[3] == PUBLIC_KEY;
    SignedSpec(p, key, body, RECEIPT_HASH);
    SignedSpec(p, key, body, SIGNATURE);
    SignedSpec(p, key, body, SIGNATURE_ALGORITHM);
    SignedSpec(p, key, body, PUBLIC_KEY);
  }

  lemma ValidationRead(v: Validation)
    requires v.Validation?
    ensures ValidationSays(ValidationJson(v), v)
  {
    ValidationObject(v);
    var ms, cs := ValidationJson(v).members, ChecksJson(v.checks).members;
    assert Proper(ms[1].value);
    LookupAt(ms, 0);
    LookupAt(ms, 1);
    LookupAt(ms, 2);
    LookupAt(cs, 0);
    LookupAt(cs, 1);
    LookupAt(cs, 2);
    LookupAt(cs, 3);
  }

  lemma ApprovalRead(approval: Json)
    ensures ApprovalSays(ApprovalJson(approval), approval)
  {
    var ms := ApprovalJson(approval).members;
    assert |APPROVAL_ID| == 11 && |INTENT_HASH| == 11 && |AUTHORIZER| == 10 && |NONCE| == 5 && |SCOPE| == 5;
    assert APPROVAL_ID[0] == 'a' as int && INTENT_HASH[0] == 'i' as int;
    assert NONCE[0] == 'n' as int && SCOPE[0] == 's' as int;
    LookupAt(ms, 0);
    LookupAt(ms, 1);
    LookupAt(ms, 2);
    LookupAt(ms, 3);
    LookupAbsent(ms, SCOPE);
  }

  /** What every assembled and signed receipt says. */
  predicate AssembledSays(receipt: Json, stamp: Stamp, intentHash: Text, executionHash: Text, validation: Json,
                          decision: Json, approval: Json, previousReceiptHash: Json, unit: Option<Json>) {
    && HeaderSays(receipt, stamp, intentHash, executionHash, previousReceiptHash)
    && Get(receipt, VALIDATION) == validation
    && Get(receipt, DECISION) == decision
    && Get(receipt, APPROVAL) == approval
    && Get(receipt, MUS_UNIT_ID) == (if unit.Some? then unit.value else Undef)
  }

  lemma AssembledRead(p: Platform, key: Text, stamp: Stamp, intentHash: Text, executionHash: Text, validation: Json,
                      decision: Json, approval: Json, previousReceiptHash: Json, unit: Option<Json>)
    requires var body := Assemble(stamp, intentHash, executionHash, validation, decision, approval,
                                  previousReceiptHash, unit);
      BodyShape(body)
    ensures var body := Assemble(stamp, intentHash, executionHash, validation, decision, approval,
                                 previousReceiptHash, unit);
      AssembledSays(SignReceiptBody(p, key, body), stamp, intentHash, executionHash, validation, decision,
                    approval, previousReceiptHash, unit)
  {
    var values :=
      [Str(stamp.receiptId), Str(stamp.timestamp), Str(intentHash), Str(executionHash),
       validation, decision, approval, ChainReferenceJson(previousReceiptHash)];
    assert BODY_KEYS[0] == RECEIPT_ID && BODY_KEYS[1] == TIMESTAMP && BODY_KEYS[2] == INTENT_HASH
      && BODY_KEYS[3] == EXECUTION_HASH && BODY_KEYS[4] == VALIDATION && BODY_KEYS[5] == DECISION
      && BODY_KEYS[6] == APPROVAL && BODY_KEYS[7] == CHAIN_REFERENCE;
    forall k | 0 <= k < 8
      ensures Get(SignReceiptBody(p, key, BuildBody(values, unit)), BODY_KEYS[k]) == values[k]
    {
      SignedField(p, key, values, unit, k);
    }
    SignedUnit(p, key, values, unit);
    assert Get(ChainReferenceJson(previousReceiptHash), PREVIOUS_RECEIPT_HASH) == previousReceiptHash;
  }

  /** A constructed receipt says what the gate answered, what it was asked about, and who approved it. */
  lemma ConstructedSays(p: Platform, r: Request, previousReceiptHash: Json)
    requires r.validation.Validation? && Proper(r.approval) && Proper(r.unit) && Proper(previousReceiptHash)
    ensures var receipt := ConstructReceipt(p, r, previousReceiptHash);
      && HeaderSays(receipt, r.stamp, p.sha256(Legacy(r.intent)), p.sha256(Legacy(r.executionInput)),
                    previousReceiptHash)
      && Get(receipt, DECISION) == (if r.validation.allow then ALLOW else BLOCK)
      && ValidationSays(Get(receipt, VALIDATION), r.validation)
      && ApprovalSays(Get(receipt, APPROVAL), r.approval)
      && Get(receipt, MUS_UNIT_ID) == (if Truthy(r.unit) then r.unit else Undef)
      && SealSays(p, receipt, r.key, Legacy(BodyFor(p, r, previousReceiptHash)))
  {
    var v, unit := r.validation, if Truthy(r.unit) then Some(r.unit) else None;
    var intentHash, executionHash := p.sha256(Legacy(r.intent)), p.sha256(Legacy(r.executionInput));
    ValidationObject(v);
    ApprovalObject(r.approval);
    AssembledSurvives(r.stamp, intentHash, executionHash, ValidationJson(v), DecisionJson(v.allow),
                      ApprovalJson(r.approval), previousReceiptHash, unit);
    AssembledRead(p, r.key, r.stamp, intentHash, executionHash, ValidationJson(v), DecisionJson(v.allow),
                  ApprovalJson(r.approval), previousReceiptHash, unit);
    SignedSeal(p, r.key, BodyFor(p, r, previousReceiptHash));
    ValidationRead(v);
    ApprovalRead(r.approval);
  }

  /** So where the validation is the gate's own, the receipt says ALLOW exactly where the execution may go ahead, and
      BLOCK everywhere else, in both places; and each check says what it checked. */
  lemma ReceiptTellsTheGate(p: Platform, r: Request, previousReceiptHash: Json)
    requires r.validation == Validate(p, r.intent, r.executionInput, r.approval) && r.validation.Validation?
    requires Proper(r.intent) && Proper(r.executionInput) && Proper(r.approval) && Proper(r.unit)
    requires Proper(previousReceiptHash)
    ensures var receipt := ConstructReceipt(p, r, previousReceiptHash);
      var action := Get(r.executionInput, ACTION);
      var intended :=
        Alike(r.intent, r.executionInput) || Collides(p.sha256, Legacy(r.intent), Legacy(r.executionInput));
      var approved := Get(r.approval, INTENT_HASH) == Str(p.sha256(Legacy(r.intent)));
      var inScope := action == Get(r.approval, SCOPE) && !action.Arr? && !action.Obj?;
      var decision := if intended && approved && inScope && action in ALLOWED_ACTIONS then ALLOW else BLOCK;
      var checks := Get(Get(receipt, VALIDATION), CHECKS);
      && Get(receipt, DECISION) == Get(Get(receipt, VALIDATION), DECISION) == decision
      && Get(checks, INTENT_MATCH) == Bool(intended)
      && Get(checks, CONTEXT_MATCH) == Bool(approved)
      && Get(checks, SCOPE_VALID) == Bool(inScope)
      && Get(checks, EXECUTION_PATH_VALID) == Bool(action in ALLOWED_ACTIONS)
  {
    ConstructedSays(p, r, previousReceiptHash);
    ChecksExactly(p, r.intent, r.executionInput, r.approval);
  }

  // ---------------------------------------------------------------- construct, append, verify

  /** The gate has answered, and what it copies into the receipt is writable. */
  predicate Constructible(r: Request) {
    && r.validation.Validation?
    && Proper(r.approval) && Writable(r.approval)
    && Proper(r.unit) && Defined(r.unit) && Writable(r.unit)
  }

  lemma ValidationWritable(v: Validation)
    requires v.Validation?
    ensures Writable(ValidationJson(v))
  {
    assert INTENT_MATCH[0] == 'i' as int && CONTEXT_MATCH[0] == 'c' as int && SCOPE_VALID[0] == 's' as int
      && EXECUTION_PATH_VALID[0] == 'e' as int;
    assert Writable(ChecksJson(v.checks));
    assert DECISION[0] == 'd' as int && CHECKS[0] == 'c' as int && POLICY_VERSION[0] == 'p' as int;
  }

  lemma ApprovalWritable(approval: Json)
    requires Writable(approval)
    ensures Writable(ApprovalJson(approval))
  {
    assert APPROVAL_ID[0] == 'a' as int && INTENT_HASH[0] == 'i' as int && AUTHORIZER[0] == 'a' as int
      && NONCE[0] == 'n' as int;
    WritableGet(approval, APPROVAL_ID);
    WritableGet(approval, INTENT_HASH);
    WritableGet(approval, AUTHORIZER);
    WritableGet(approval, NONCE);
  }

  lemma LinkWritable(hash: Json)
    requires Writable(hash)
    ensures Writable(ChainReferenceJson(hash))
  {
    NamedFields();
  }

  lemma BodyWritable(p: Platform, r: Request, hash: Json)
    requires Constructible(r) && Writable(hash)
    ensures Writable(BodyFor(p, r, hash))
  {
    ValidationWritable(r.validation);
    ApprovalWritable(r.approval);
    LinkWritable(hash);
    BuildBodyWritable(
      [Str(r.stamp.receiptId), Str(r.stamp.timestamp), Str(p.sha256(Legacy(r.intent))),
       Str(p.sha256(Legacy(r.executionInput))), ValidationJson(r.validation), DecisionJson(r.validation.allow),
       ApprovalJson(r.approval), ChainReferenceJson(hash)],
      if Truthy(r.unit) then Some(r.unit) else None);
  }

  /** A receipt constructed on the tail of a grown ledger is appended. The chain verifier then says valid, with one
      record more, if the approval is complete, and only then, short of a collision of its two payloads. */
  lemma ConstructedVerifiesExactly(p: Platform, trusted: seq<Json>, content: Text, r: Request, now: Text)
    requires ReadsBack(p) && SignsSoundly(p) && Grown(p, trusted, content)
    requires Constructible(r) && Includes(trusted, Str(p.publicKey(r.key)))
    ensures TailOf(ReadContent(p, content)).Tail?
    ensures var hash := TailOf(ReadContent(p, content)).hash;
      var receipt, body := ConstructReceipt(p, r, hash), BodyFor(p, r, hash);
      var report := ReportOf(p, trusted, true, AfterAppend(p, content, receipt, now));
      && AppendOutcome(p, content, receipt, now).Appended?
      && (ApprovalComplete(r.approval) ==> report == Report(true, |ReadContent(p, content).entries| + 1, []))
      && (report.Report? && report.valid ==>
            ApprovalComplete(r.approval) || Collides(p.sha256, Payload(StoredReceipt(p, r.key, body)), Legacy(body)))
  {
    GrownTail(p, trusted, content);
    var hash := TailOf(ReadContent(p, content)).hash;
    var receipt, body := ConstructReceipt(p, r, hash), BodyFor(p, r, hash);
    ConstructedSurvives(p, r.unit, r.stamp, r.intent, r.executionInput, r.approval, r.validation, hash);
    BodyWritable(p, r, hash);
    ReceiptFields(p, r.key, body);
    AppendVerifiesExactly(p, trusted, content, r.key, body, now);
    if ApprovalComplete(r.approval) {
      assert GenuineBy(p, trusted, receipt, r.key, body);
      AppendKeepsGrown(p, trusted, content, receipt, now);
      ReportExact(p, trusted, true, AfterAppend(p, content, receipt, now));
    }
  }
}
