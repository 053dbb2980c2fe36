/** Evidence for a coherence assessment, the rules that judge it, and the verdict they meet in. */
module Coherence {
  import opened Unicode
  import opened Values
  import opened JsonText
  import opened Platform
  import opened Receipts
  import opened Gate
  import opened Seal

  // ---------------------------------------------------------------- names

  const AUTHORIZATION_NONCE: Text := U("authorization_nonce")
  const AUTHORIZED_ACTION_HASH: Text := U("authorized_action_hash")
  const ACTUAL_ACTION_HASH: Text := U("actual_action_hash")
  const ATTEMPTED_ACTION_HASH: Text := U("attempted_action_hash")
  const EXECUTION: Text := U("execution")
  const STATUS: Text := U("status")
  const CONSEQUENCE_HASH: Text := U("consequence_hash")
  const OBSERVED_CONSEQUENCE_HASH: Text := U("observed_consequence_hash")
  const CONSEQUENCE_EVALUATION: Text := U("consequence_evaluation")
  const MODE: Text := U("mode")
  const CONTRACT_HASH: Text := U("contract_hash")
  const EXPECTED_HASH: Text := U("expected_hash")
  const EVALUATOR_ID: Text := U("evaluator_id")
  const EVALUATOR_VERSION: Text := U("evaluator_version")
  const ADMISSION_RECEIPT_HASH: Text := U("admission_receipt_hash")
  const AUTHORIZATION_EXPIRES_AT: Text := U("authorization_expires_at")
  const CREATED_AT: Text := U("created_at")
  const PERMITTED_EXECUTOR_NODES: Text := U("permitted_executor_nodes")
  const PERMITTED_EXECUTION_CONTEXTS: Text := U("permitted_execution_contexts")
  const EXECUTOR: Text := U("executor")
  const NODE_ID: Text := U("node_id")
  const EXECUTION_CONTEXT: Text := U("execution_context")
  const CANONICALIZATION: Text := U("canonicalization")
  const PROFILE: Text := U("profile")
  const PROFILE_VERSION: Text := U("profile_version")
  const ADMISSION_RECEIPT: Text := U("admission_receipt")
  const CONSEQUENCE_RECEIPT: Text := U("consequence_receipt")
  const SENTINEL_ATTESTATION: Text := U("sentinel_attestation")
  const ERROR_HASH: Text := U("error_hash")
  const RESIDUE_HASH: Text := U("residue_hash")

  const S_VALID: Json := Str(U("VALID"))
  const S_INVALID: Json := Str(U("INVALID"))
  const IN_RECOVERY: Json := Str(U("RECOVERY_REQUIRED"))
  const M_NONE: Json := Str(U("NONE"))
  const M_EXACT_HASH: Json := Str(U("EXACT_HASH"))
  const M_CONTRACT: Json := Str(U("CONTRACT"))

  const NON_EXECUTION_STATUSES: seq<Json> := [
    Str(U("BLOCKED_BEFORE_EXECUTION")), Str(U("BLOCKED_ACTION_MISMATCH")), Str(U("BLOCKED_POLICY_OR_AUTHORITY"))]

  const TERMINAL_NONCE_STATES: seq<Json> := [
    Str(U("CONSUMED")), Str(U("REVOKED")), Str(U("EXPIRED")), Str(U("ABORTED_BEFORE_RELEASE")), IN_RECOVERY]

  /** A reason or rule code. */
  type Code = t: Text | t != [] witness [0x41]

  const ADMISSION_RECEIPT_UNAVAILABLE: Code := U("ADMISSION_RECEIPT_UNAVAILABLE")
  const CONSEQUENCE_RECEIPT_UNAVAILABLE: Code := U("CONSEQUENCE_RECEIPT_UNAVAILABLE")
  const ADMISSION_RECEIPT_HASH_UNAVAILABLE: Code := U("ADMISSION_RECEIPT_HASH_UNAVAILABLE")
  const CONSEQUENCE_RECEIPT_HASH_UNAVAILABLE: Code := U("CONSEQUENCE_RECEIPT_HASH_UNAVAILABLE")
  const CRYPTOGRAPHIC_EVIDENCE_UNAVAILABLE: Code := U("CRYPTOGRAPHIC_EVIDENCE_UNAVAILABLE")
  const ADMISSION_RECEIPT_CRYPTO_INVALID: Code := U("ADMISSION_RECEIPT_CRYPTO_INVALID")
  const ADMISSION_RECEIPT_CRYPTO_UNRESOLVED: Code := U("ADMISSION_RECEIPT_CRYPTO_UNRESOLVED")
  const CONSEQUENCE_RECEIPT_CRYPTO_INVALID: Code := U("CONSEQUENCE_RECEIPT_CRYPTO_INVALID")
  const CONSEQUENCE_RECEIPT_CRYPTO_UNRESOLVED: Code := U("CONSEQUENCE_RECEIPT_CRYPTO_UNRESOLVED")
  const SENTINEL_ATTESTATION_INVALID: Code := U("SENTINEL_ATTESTATION_INVALID")
  const SENTINEL_ATTESTATION_UNRESOLVED: Code := U("SENTINEL_ATTESTATION_UNRESOLVED")
  const ADMISSION_RECEIPT_BINDING_MISMATCH: Code := U("ADMISSION_RECEIPT_BINDING_MISMATCH")
  const PREVIOUS_RECEIPT_HASH_MISMATCH: Code := U("PREVIOUS_RECEIPT_HASH_MISMATCH")
  const AUTHORIZATION_NONCE_UNAVAILABLE: Code := U("AUTHORIZATION_NONCE_UNAVAILABLE")
  const AUTHORIZATION_NONCE_MISMATCH: Code := U("AUTHORIZATION_NONCE_MISMATCH")
  const AUTHORIZATION_NONCE_STATE_UNAVAILABLE: Code := U("AUTHORIZATION_NONCE_STATE_UNAVAILABLE")
  const NONCE_RECOVERY_REQUIRED: Code := U("NONCE_RECOVERY_REQUIRED")
  const AUTHORIZATION_NONCE_NOT_TERMINAL: Code := U("AUTHORIZATION_NONCE_NOT_TERMINAL")
  const AUTHORIZATION_EXPIRED_BEFORE_CONSEQUENCE: Code := U("AUTHORIZATION_EXPIRED_BEFORE_CONSEQUENCE")
  const TEMPORAL_BINDING_INCOMPLETE: Code := U("TEMPORAL_BINDING_INCOMPLETE")
  const EXECUTOR_NODE_NOT_PERMITTED: Code := U("EXECUTOR_NODE_NOT_PERMITTED")
  const EXECUTION_CONTEXT_NOT_PERMITTED: Code := U("EXECUTION_CONTEXT_NOT_PERMITTED")
  const UNSUPPORTED_CANONICALIZATION_PROFILE: Code := U("UNSUPPORTED_CANONICALIZATION_PROFILE")
  const ACTION_CONFORMANCE_INDETERMINATE: Code := U("ACTION_CONFORMANCE_INDETERMINATE")
  const CONSEQUENCE_CONFORMANCE_INDETERMINATE: Code := U("CONSEQUENCE_CONFORMANCE_INDETERMINATE")
  const AUTHORIZED_CONSEQUENCE_HASH_MISSING: Code := U("AUTHORIZED_CONSEQUENCE_HASH_MISSING")
  const CONSEQUENCE_EVALUATOR_UNAVAILABLE: Code := U("CONSEQUENCE_EVALUATOR_UNAVAILABLE")
  const CONSEQUENCE_EVALUATOR_INVALID_RESULT: Code := U("CONSEQUENCE_EVALUATOR_INVALID_RESULT")
  const UNSUPPORTED_CONSEQUENCE_EVALUATION_MODE: Code := U("UNSUPPORTED_CONSEQUENCE_EVALUATION_MODE")

  // ---------------------------------------------------------------- evidence

  /** What the consequence evaluator returns: nothing usable, or a status with a reason (empty for none). */
  datatype Answer = NoAnswer | Answer(status: Json, evaluatorId: Json, evaluatorVersion: Json, reason: Text)

  datatype Evaluator = NoEvaluator | Evaluator(answer: Answer)

  /** The arguments of an assessment. */
  datatype Inputs = Inputs(
    admission: Json,
    consequence: Json,
    metadata: Json,
    cryptographicEvidence: Json,
    nonceState: Json,
    evaluator: Evaluator
  )

  /** The facts read from the two receipts. */
  datatype Evidence = Evidence(
    admissionHash: Json,
    consequenceHash: Json,
    executionStatus: Json,
    admissionNonce: Json,
    consequenceNonce: Json,
    authorizedActionHash: Json,
    actualActionHash: Json,
    observedConsequenceHash: Json,
    evaluation: Json,
    declaredAdmissionHash: Json,
    previousReceiptHash: Json,
    expiresAt: Json,
    consequenceCreatedAt: Json,
    allowedNodes: Json,
    allowedContexts: Json,
    actualNode: Json,
    actualContext: Json,
    profile: Json,
    profileVersion: Json,
    hasResidue: bool
  )

  function Or(a: Json, b: Json): Json {
    if Truthy(a) then a else b
  }

  function Path(v: Json, outer: Text, inner: Text): Json {
    Get(Get(v, outer), inner)
  }

  function ReceiptHashOf(r: Json): Json {
    Or(Path(r, CHAIN, RECEIPT_HASH), Or(Get(r, RECEIPT_HASH), Null))
  }

  function PreviousReceiptHashOf(r: Json): Json {
    Or(Path(r, CHAIN, PREVIOUS_RECEIPT_HASH), Or(Get(r, PREVIOUS_RECEIPT_HASH), Null))
  }

  function AuthorizationNonceOf(r: Json): Json {
    Or(Get(r, AUTHORIZATION_NONCE), Or(Path(r, APPROVAL, NONCE), Null))
  }

  function AuthorizedActionHashOf(admission: Json): Json {
    Or(Path(admission, DECISION, AUTHORIZED_ACTION_HASH),
       Or(Get(admission, AUTHORIZED_ACTION_HASH), Or(Get(admission, EXECUTION_HASH), Null)))
  }

  function ActualActionHashOf(consequence: Json): Json {
    Or(Path(consequence, EXECUTION, ACTUAL_ACTION_HASH),
       Or(Path(consequence, EXECUTION, ATTEMPTED_ACTION_HASH), Or(Get(consequence, ACTUAL_ACTION_HASH), Null)))
  }

  function ObservedConsequenceHashOf(consequence: Json): Json {
    Or(Path(consequence, EXECUTION, CONSEQUENCE_HASH), Or(Get(consequence, OBSERVED_CONSEQUENCE_HASH), Null))
  }

  function EvaluationOf(admission: Json): Json {
    Or(Path(admission, DECISION, CONSEQUENCE_EVALUATION),
       Or(Get(admission, CONSEQUENCE_EVALUATION), Obj([Member(MODE, M_NONE)])))
  }

  function Extract(a: Json, c: Json): Evidence {
    Evidence(
      admissionHash := ReceiptHashOf(a),
      consequenceHash := ReceiptHashOf(c),
      executionStatus := Or(Path(c, EXECUTION, STATUS), Null),
      admissionNonce := AuthorizationNonceOf(a),
      consequenceNonce := AuthorizationNonceOf(c),
      authorizedActionHash := AuthorizedActionHashOf(a),
      actualActionHash := ActualActionHashOf(c),
      observedConsequenceHash := ObservedConsequenceHashOf(c),
      evaluation := EvaluationOf(a),
      declaredAdmissionHash := Or(Get(c, ADMISSION_RECEIPT_HASH), Null),
      previousReceiptHash := PreviousReceiptHashOf(c),
      expiresAt := Or(Path(a, DECISION, AUTHORIZATION_EXPIRES_AT), Null),
      consequenceCreatedAt := Or(Get(c, CREATED_AT), Or(Get(c, TIMESTAMP), Null)),
      allowedNodes := Path(a, DECISION, PERMITTED_EXECUTOR_NODES),
      allowedContexts := Path(a, DECISION, PERMITTED_EXECUTION_CONTEXTS),
      actualNode := Path(c, EXECUTOR, NODE_ID),
      actualContext := Path(c, EXECUTOR, EXECUTION_CONTEXT),
      profile := Path(c, CANONICALIZATION, PROFILE),
      profileVersion := Path(c, CANONICALIZATION, PROFILE_VERSION),
      hasResidue := Truthy(Path(c, EXECUTION, ERROR_HASH)) || Truthy(Path(c, EXECUTION, RESIDUE_HASH))
                    || Truthy(Get(c, RESIDUE_HASH)))
  }

  /** Sixty-four lower-case hexadecimal digits. */
  predicate IsHash(v: Json) {
    v.Str? && |v.s| == 64 && forall i | 0 <= i < 64 :: IsHex(v.s[i])
  }

  // ---------------------------------------------------------------- conformance

  datatype Conformance = MATCH | MISMATCH | NOT_EXECUTED | NO_CONSEQUENCE | NOT_EVALUATED | INDETERMINATE

  function ActionConformance(e: Evidence): Conformance {
    if Includes(NON_EXECUTION_STATUSES, e.executionStatus) && e.actualActionHash.Null? then NOT_EXECUTED
    else if e.actualActionHash.Null? || e.authorizedActionHash.Null? then INDETERMINATE
    else if StrictEq(e.authorizedActionHash, e.actualActionHash) then MATCH
    else MISMATCH
  }

  /** Conformance of the consequence, with what the record keeps of the evaluation; an empty reason is none. */
  datatype Consequence = Consequence(
    status: Conformance,
    mode: Json,
    contractHash: Json,
    evaluatorId: Json,
    evaluatorVersion: Json,
    reason: Text
  )

  function ModeOf(e: Evidence): Json {
    Or(Get(e.evaluation, MODE), M_NONE)
  }

  function Plain(status: Conformance, mode: Json, reason: Text): Consequence {
    Consequence(status, mode, Null, Null, Null, reason)
  }

  function StatusOf(v: Json): Option<Conformance> {
    if v == Str(U("MATCH")) then Some(MATCH)
    else if v == Str(U("MISMATCH")) then Some(MISMATCH)
    else if v == Str(U("INDETERMINATE")) then Some(INDETERMINATE)
    else None
  }

  function ConsequenceConformance(e: Evidence, evaluator: Evaluator): Consequence {
    var mode := ModeOf(e);
    var observed := e.observedConsequenceHash;
    if mode == M_NONE then Plain(if observed.Null? then NO_CONSEQUENCE else NOT_EVALUATED, mode, [])
    else if observed.Null? then Plain(NO_CONSEQUENCE, mode, [])
    else if mode == M_EXACT_HASH then
      var expected := Or(Get(e.evaluation, CONTRACT_HASH), Or(Get(e.evaluation, EXPECTED_HASH), Null));
      if !IsHash(expected) then Plain(INDETERMINATE, mode, AUTHORIZED_CONSEQUENCE_HASH_MISSING)
      else Consequence(if StrictEq(expected, observed) then MATCH else MISMATCH, mode, expected, Null, Null, [])
    else if mode == M_CONTRACT then ContractConformance(e.evaluation, evaluator)
    else Plain(INDETERMINATE, mode, UNSUPPORTED_CONSEQUENCE_EVALUATION_MODE)
  }

  function ContractConformance(evaluation: Json, evaluator: Evaluator): Consequence {
    var contract := Or(Get(evaluation, CONTRACT_HASH), Null);
    var id, version := Get(evaluation, EVALUATOR_ID), Get(evaluation, EVALUATOR_VERSION);
    match evaluator
    case NoEvaluator =>
      Consequence(INDETERMINATE, M_CONTRACT, contract, Or(id, Null), Or(version, Null), CONSEQUENCE_EVALUATOR_UNAVAILABLE)
    case Evaluator(NoAnswer) => Plain(INDETERMINATE, M_CONTRACT, CONSEQUENCE_EVALUATOR_INVALID_RESULT)
    case Evaluator(Answer(status, answerId, answerVersion, reason)) =>
      match StatusOf(status)
      case None => Plain(INDETERMINATE, M_CONTRACT, CONSEQUENCE_EVALUATOR_INVALID_RESULT)
      case Some(s) =>
        Consequence(s, M_CONTRACT, contract, Or(id, Or(answerId, Null)), Or(version, Or(answerVersion, Null)), reason)
  }

  // ---------------------------------------------------------------- verdicts

  /** VALID above UNRESOLVED above INVALID. */
  datatype Verdict = INVALID | UNRESOLVED | VALID

  function Rank(v: Verdict): nat {
    match v
    case INVALID => 0
    case UNRESOLVED => 1
    case VALID => 2
  }

  function Meet(a: Verdict, b: Verdict): Verdict {
    if Rank(a) <= Rank(b) then a else b
  }

  function MeetAll(vs: seq<Verdict>): Verdict {
    if vs == [] then VALID else Meet(vs[0], MeetAll(vs[1..]))
  }

  /** The reasons a rule gives. */
  datatype Findings = Findings(invalid: set<Code>, unresolved: set<Code>)

  const NOTHING: Findings := Findings({}, {})

  function Invalidates(when: bool, code: Code): Findings {
    if when then Findings({code}, {}) else NOTHING
  }

  function Unresolves(when: bool, code: Code): Findings {
    if when then Findings({}, {code}) else NOTHING
  }

  function Both(a: Findings, b: Findings): Findings {
    Findings(a.invalid + b.invalid, a.unresolved + b.unresolved)
  }

  function BothAll(fs: seq<Findings>): Findings {
    if fs == [] then NOTHING else Both(fs[0], BothAll(fs[1..]))
  }

  function VerdictOf(f: Findings): Verdict {
    if f.invalid != {} then INVALID else if f.unresolved != {} then UNRESOLVED else VALID
  }

  function Verdicts(fs: seq<Findings>): (vs: seq<Verdict>)
    ensures |vs| == |fs|
  {
    seq(|fs|, i requires 0 <= i < |fs| => VerdictOf(fs[i]))
  }

  /** Pooling the reasons of any number of rules takes the meet of their verdicts. */
  lemma {:induction false} PooledReasonsMeet(fs: seq<Findings>)
    ensures VerdictOf(BothAll(fs)) == MeetAll(Verdicts(fs))
  {
    if fs != [] {
      PooledReasonsMeet(fs[1..]);
      assert Verdicts(fs)[1..] == Verdicts(fs[1..]);
    }
  }

  lemma {:induction false} MeetAllIsValid(vs: seq<Verdict>)
    ensures MeetAll(vs) == VALID <==> forall i | 0 <= i < |vs| :: vs[i] == VALID
  {
    if vs != [] {
      MeetAllIsValid(vs[1..]);
      assert forall i | 1 <= i < |vs| :: vs[i] == vs[1..][i - 1];
    }
  }

  // ---------------------------------------------------------------- the rules, each on its own

  function ReceiptRule(admission: Json, consequence: Json, e: Evidence): Findings {
    Both(
      Both(Unresolves(!admission.Obj?, ADMISSION_RECEIPT_UNAVAILABLE),
           Unresolves(!consequence.Obj?, CONSEQUENCE_RECEIPT_UNAVAILABLE)),
      Both(Unresolves(!IsHash(e.admissionHash), ADMISSION_RECEIPT_HASH_UNAVAILABLE),
           Unresolves(!IsHash(e.consequenceHash), CONSEQUENCE_RECEIPT_HASH_UNAVAILABLE)))
  }

  function StatusRule(status: Json, invalid: Code, unresolved: Code): Findings {
    Both(Invalidates(status == S_INVALID, invalid), Unresolves(status != S_INVALID && status != S_VALID, unresolved))
  }

  function AdmissionCrypto(evidence: Json): Findings {
    StatusRule(Get(evidence, ADMISSION_RECEIPT), ADMISSION_RECEIPT_CRYPTO_INVALID, ADMISSION_RECEIPT_CRYPTO_UNRESOLVED)
  }

  function ConsequenceCrypto(evidence: Json): Findings {
    StatusRule(Get(evidence, CONSEQUENCE_RECEIPT), CONSEQUENCE_RECEIPT_CRYPTO_INVALID,
               CONSEQUENCE_RECEIPT_CRYPTO_UNRESOLVED)
  }

  function SentinelCrypto(evidence: Json): Findings {
    StatusRule(Get(evidence, SENTINEL_ATTESTATION), SENTINEL_ATTESTATION_INVALID, SENTINEL_ATTESTATION_UNRESOLVED)
  }

  function CryptoRule(evidence: Json): Findings {
    if !evidence.Obj? then Unresolves(true, CRYPTOGRAPHIC_EVIDENCE_UNAVAILABLE)
    else Both(AdmissionCrypto(evidence), Both(ConsequenceCrypto(evidence), SentinelCrypto(evidence)))
  }

  function ChainRule(e: Evidence): Findings {
    if !IsHash(e.admissionHash) then NOTHING
    else
      Both(Invalidates(e.declaredAdmissionHash != e.admissionHash, ADMISSION_RECEIPT_BINDING_MISMATCH),
           Invalidates(e.previousReceiptHash != e.admissionHash, PREVIOUS_RECEIPT_HASH_MISMATCH))
  }

  function NonceRule(e: Evidence): Findings {
    if !Truthy(e.admissionNonce) || !Truthy(e.consequenceNonce) then Unresolves(true, AUTHORIZATION_NONCE_UNAVAILABLE)
    else Invalidates(!StrictEq(e.admissionNonce, e.consequenceNonce), AUTHORIZATION_NONCE_MISMATCH)
  }

  function ReplayRule(nonceState: Json): Findings {
    if !Truthy(nonceState) then Unresolves(true, AUTHORIZATION_NONCE_STATE_UNAVAILABLE)
    else if nonceState == IN_RECOVERY then Unresolves(true, NONCE_RECOVERY_REQUIRED)
    else Unresolves(!Includes(TERMINAL_NONCE_STATES, nonceState), AUTHORIZATION_NONCE_NOT_TERMINAL)
  }

  /** Both instants parse and the consequence is the later one; a comparison with no number is false. */
  predicate Late(p: Platform, consequenceCreatedAt: Json, expiresAt: Json) {
    && p.dateParse(consequenceCreatedAt).Some? && p.dateParse(expiresAt).Some?
    && p.dateParse(consequenceCreatedAt).value > p.dateParse(expiresAt).value
  }

  function TimeRule(p: Platform, e: Evidence): Findings {
    if Truthy(e.expiresAt) && Truthy(e.consequenceCreatedAt) then
      Invalidates(Late(p, e.consequenceCreatedAt, e.expiresAt), AUTHORIZATION_EXPIRED_BEFORE_CONSEQUENCE)
    else Unresolves(Truthy(e.expiresAt) || Truthy(e.consequenceCreatedAt), TEMPORAL_BINDING_INCOMPLETE)
  }

  function ExecutorRule(e: Evidence): Findings {
    Both(
      Invalidates(e.allowedNodes.Arr? && !Includes(e.allowedNodes.items, e.actualNode), EXECUTOR_NODE_NOT_PERMITTED),
      Invalidates(e.allowedContexts.Arr? && !Includes(e.allowedContexts.items, e.actualContext),
                  EXECUTION_CONTEXT_NOT_PERMITTED))
  }

  predicate ProfileSupported(e: Evidence) {
    e.profile == Str(U("RIO-CANON")) && e.profileVersion == Str(U("1.1.0"))
  }

  function ProfileRule(e: Evidence): Findings {
    Unresolves(!ProfileSupported(e), UNSUPPORTED_CANONICALIZATION_PROFILE)
  }

  function ActionRule(e: Evidence): Findings {
    Unresolves(ActionConformance(e) == INDETERMINATE, ACTION_CONFORMANCE_INDETERMINATE)
  }

  function OutcomeReason(c: Consequence): Code {
    if c.reason != [] then c.reason else CONSEQUENCE_CONFORMANCE_INDETERMINATE
  }

  function OutcomeRule(evaluator: Evaluator, e: Evidence): Findings {
    var c := ConsequenceConformance(e, evaluator);
    Unresolves(c.status == INDETERMINATE, OutcomeReason(c))
  }

  /** The rules that are always applied, in the order of the code. */
  function BaseRules(p: Platform, i: Inputs, e: Evidence): seq<Findings> {
    [ReceiptRule(i.admission, i.consequence, e), CryptoRule(i.cryptographicEvidence), ChainRule(e), NonceRule(e),
     ReplayRule(i.nonceState), TimeRule(p, e), ExecutorRule(e), ProfileRule(e)]
  }

  /** All ten rules. */
  function AllRules(p: Platform, i: Inputs, e: Evidence): seq<Findings> {
    BaseRules(p, i, e) + [ActionRule(e), OutcomeRule(i.evaluator, e)]
  }

  /** What is actually gathered: the last two rules are skipped once something is invalid. */
  function Gathered(p: Platform, i: Inputs, e: Evidence): Findings {
    var base := BothAll(BaseRules(p, i, e));
    if base.invalid != {} then base else Both(base, Both(ActionRule(e), OutcomeRule(i.evaluator, e)))
  }

  lemma {:induction false} BothAllConcat(fs: seq<Findings>, gs: seq<Findings>)
    ensures BothAll(fs + gs) == Both(BothAll(fs), BothAll(gs))
  {
    if fs == [] {
      assert fs + gs == gs;
    } else {
      BothAllConcat(fs[1..], gs);
      assert (fs + gs)[1..] == fs[1..] + gs;
    }
  }

  lemma BothAllTwo(f: Findings, g: Findings)
    ensures BothAll([f, g]) == Both(f, g)
  {
    assert [f, g][1..] == [g] && [g][1..] == [];
    assert BothAll([g]) == Both(g, NOTHING) == g;
  }

  /** The verdict of what is gathered is the meet of all ten rules judged independently, even though two of
      them are skipped after an invalidity. */
  lemma VerdictIsMeet(p: Platform, i: Inputs, e: Evidence)
    ensures VerdictOf(Gathered(p, i, e)) == MeetAll(Verdicts(AllRules(p, i, e)))
  {
    var last := [ActionRule(e), OutcomeRule(i.evaluator, e)];
    PooledReasonsMeet(AllRules(p, i, e));
    BothAllConcat(BaseRules(p, i, e), last);
    BothAllTwo(ActionRule(e), OutcomeRule(i.evaluator, e));
  }

  // ---------------------------------------------------------------- when an assessment is VALID

  predicate CryptoValid(evidence: Json) {
    && evidence.Obj?
    && Get(evidence, ADMISSION_RECEIPT) == S_VALID
    && Get(evidence, CONSEQUENCE_RECEIPT) == S_VALID
    && Get(evidence, SENTINEL_ATTESTATION) == S_VALID
  }

  predicate Bindings(i: Inputs, e: Evidence) {
    && i.admission.Obj? && i.consequence.Obj?
    && IsHash(e.admissionHash) && IsHash(e.consequenceHash)
    && e.declaredAdmissionHash == e.admissionHash && e.previousReceiptHash == e.admissionHash
  }

  predicate NonceSettled(i: Inputs, e: Evidence) {
    && Truthy(e.admissionNonce) && StrictEq(e.admissionNonce, e.consequenceNonce)
    && Includes(TERMINAL_NONCE_STATES, i.nonceState) && i.nonceState != IN_RECOVERY
  }

  predicate InTime(p: Platform, e: Evidence) {
    if Truthy(e.expiresAt) then Truthy(e.consequenceCreatedAt) && !Late(p, e.consequenceCreatedAt, e.expiresAt)
    else !Truthy(e.consequenceCreatedAt)
  }

  predicate ExecutorPermitted(e: Evidence) {
    && (e.allowedNodes.Arr? ==> Includes(e.allowedNodes.items, e.actualNode))
    && (e.allowedContexts.Arr? ==> Includes(e.allowedContexts.items, e.actualContext))
  }

  /** The evidence closes: everything the rules ask for is there and agrees. */
  predicate Closes(p: Platform, i: Inputs, e: Evidence) {
    && Bindings(i, e)
    && CryptoValid(i.cryptographicEvidence)
    && NonceSettled(i, e)
    && InTime(p, e)
    && ExecutorPermitted(e)
    && ProfileSupported(e)
    && ActionConformance(e) != INDETERMINATE
    && ConsequenceConformance(e, i.evaluator).status != INDETERMINATE
  }

  lemma BindingsClose(i: Inputs, e: Evidence)
    ensures VerdictOf(ReceiptRule(i.admission, i.consequence, e)) == VALID && VerdictOf(ChainRule(e)) == VALID
      <==> Bindings(i, e)
  {
  }

  lemma CryptoCloses(evidence: Json)
    ensures VerdictOf(CryptoRule(evidence)) == VALID <==> CryptoValid(evidence)
  {
  }

  lemma NonceCloses(i: Inputs, e: Evidence)
    ensures VerdictOf(NonceRule(e)) == VALID && VerdictOf(ReplayRule(i.nonceState)) == VALID <==> NonceSettled(i, e)
  {
    if Includes(TERMINAL_NONCE_STATES, i.nonceState) {
      var k :| 0 <= k < |TERMINAL_NONCE_STATES| && StrictEq(TERMINAL_NONCE_STATES[k], i.nonceState);
      TerminalTruthy(k);
    }
  }

  lemma TerminalTruthy(k: nat)
    requires k < |TERMINAL_NONCE_STATES|
    ensures Truthy(TERMINAL_NONCE_STATES[k])
  {
  }

  lemma OtherRulesClose(p: Platform, i: Inputs, e: Evidence)
    ensures VerdictOf(TimeRule(p, e)) == VALID <==> InTime(p, e)
    ensures VerdictOf(ExecutorRule(e)) == VALID <==> ExecutorPermitted(e)
    ensures VerdictOf(ProfileRule(e)) == VALID <==> ProfileSupported(e)
    ensures VerdictOf(ActionRule(e)) == VALID <==> ActionConformance(e) != INDETERMINATE
    ensures VerdictOf(OutcomeRule(i.evaluator, e)) == VALID
      <==> ConsequenceConformance(e, i.evaluator).status != INDETERMINATE
  {
  }

  /** The ten verdicts one by one. */
  predicate AllRulesValid(p: Platform, i: Inputs, e: Evidence) {
    && VerdictOf(ReceiptRule(i.admission, i.consequence, e)) == VALID
    && VerdictOf(CryptoRule(i.cryptographicEvidence)) == VALID
    && VerdictOf(ChainRule(e)) == VALID
    && VerdictOf(NonceRule(e)) == VALID
    && VerdictOf(ReplayRule(i.nonceState)) == VALID
    && VerdictOf(TimeRule(p, e)) == VALID
    && VerdictOf(ExecutorRule(e)) == VALID
    && VerdictOf(ProfileRule(e)) == VALID
    && VerdictOf(ActionRule(e)) == VALID
    && VerdictOf(OutcomeRule(i.evaluator, e)) == VALID
  }

  lemma RulesCloseTogether(p: Platform, i: Inputs, e: Evidence)
    ensures AllRulesValid(p, i, e) <==> Closes(p, i, e)
  {
    BindingsClose(i, e);
    CryptoCloses(i.cryptographicEvidence);
    NonceCloses(i, e);
    OtherRulesClose(p, i, e);
  }

  lemma EveryVerdict(fs: seq<Findings>)
    ensures VerdictOf(BothAll(fs)) == VALID <==> forall k | 0 <= k < |fs| :: VerdictOf(fs[k]) == VALID
  {
    PooledReasonsMeet(fs);
    MeetAllIsValid(Verdicts(fs));
    assert forall k | 0 <= k < |fs| :: Verdicts(fs)[k] == VerdictOf(fs[k]);
  }

  lemma EightVerdicts(fs: seq<Findings>)
    requires |fs| == 8
    ensures VerdictOf(BothAll(fs)) == VALID <==>
      && VerdictOf(fs[0]) == VALID && VerdictOf(fs[1]) == VALID && VerdictOf(fs[2]) == VALID && VerdictOf(fs[3]) == VALID
      && VerdictOf(fs[4]) == VALID && VerdictOf(fs[5]) == VALID && VerdictOf(fs[6]) == VALID && VerdictOf(fs[7]) == VALID
  {
    EveryVerdict(fs);
  }

  lemma BaseVerdicts(p: Platform, i: Inputs, e: Evidence)
    ensures VerdictOf(BothAll(BaseRules(p, i, e))) == VALID
         && VerdictOf(ActionRule(e)) == VALID && VerdictOf(OutcomeRule(i.evaluator, e)) == VALID
      <==> AllRulesValid(p, i, e)
  {
    EightVerdicts(BaseRules(p, i, e));
  }

  lemma BothVerdict(base: Findings, a: Findings, b: Findings)
    requires a.invalid == {} && b.invalid == {}
    ensures VerdictOf(if base.invalid != {} then base else Both(base, Both(a, b))) == VALID
      <==> VerdictOf(base) == VALID && VerdictOf(a) == VALID && VerdictOf(b) == VALID
  {
  }

  /** The verdict is VALID exactly when the evidence closes. */
  lemma ValidExactly(p: Platform, i: Inputs, e: Evidence)
    ensures VerdictOf(Gathered(p, i, e)) == VALID <==> Closes(p, i, e)
  {
    BothVerdict(BothAll(BaseRules(p, i, e)), ActionRule(e), OutcomeRule(i.evaluator, e));
    BaseVerdicts(p, i, e);
    RulesCloseTogether(p, i, e);
  }

  // ---------------------------------------------------------------- when it is INVALID

  predicate CryptoInvalid(evidence: Json) {
    && evidence.Obj?
    && (|| Get(evidence, ADMISSION_RECEIPT) == S_INVALID
        || Get(evidence, CONSEQUENCE_RECEIPT) == S_INVALID
        || Get(evidence, SENTINEL_ATTESTATION) == S_INVALID)
  }

  predicate BindingMismatch(e: Evidence) {
    && IsHash(e.admissionHash)
    && (e.declaredAdmissionHash != e.admissionHash || e.previousReceiptHash != e.admissionHash)
  }

  predicate NonceMismatch(e: Evidence) {
    Truthy(e.admissionNonce) && Truthy(e.consequenceNonce) && !StrictEq(e.admissionNonce, e.consequenceNonce)
  }

  predicate Expired(p: Platform, e: Evidence) {
    Truthy(e.expiresAt) && Truthy(e.consequenceCreatedAt) && Late(p, e.consequenceCreatedAt, e.expiresAt)
  }

  /** Some evidence contradicts the rest. */
  predicate Contradicts(p: Platform, i: Inputs, e: Evidence) {
    || CryptoInvalid(i.cryptographicEvidence)
    || BindingMismatch(e)
    || NonceMismatch(e)
    || Expired(p, e)
    || !ExecutorPermitted(e)
  }

  lemma {:induction false} PooledInvalid(fs: seq<Findings>)
    ensures BothAll(fs).invalid == {} <==> forall k | 0 <= k < |fs| :: fs[k].invalid == {}
  {
    if fs != [] {
      PooledInvalid(fs[1..]);
      assert forall k | 1 <= k < |fs| :: fs[k] == fs[1..][k - 1];
    }
  }

  lemma EightInvalid(fs: seq<Findings>)
    requires |fs| == 8
    ensures BothAll(fs).invalid == {} <==>
      && fs[0].invalid == {} && fs[1].invalid == {} && fs[2].invalid == {} && fs[3].invalid == {}
      && fs[4].invalid == {} && fs[5].invalid == {} && fs[6].invalid == {} && fs[7].invalid == {}
  {
    PooledInvalid(fs);
  }

  lemma RulesContradict(p: Platform, i: Inputs, e: Evidence)
    ensures ReceiptRule(i.admission, i.consequence, e).invalid == {} && ReplayRule(i.nonceState).invalid == {}
    ensures ProfileRule(e).invalid == {}
    ensures CryptoRule(i.cryptographicEvidence).invalid == {} <==> !CryptoInvalid(i.cryptographicEvidence)
    ensures ChainRule(e).invalid == {} <==> !BindingMismatch(e)
    ensures NonceRule(e).invalid == {} <==> !NonceMismatch(e)
    ensures TimeRule(p, e).invalid == {} <==> !Expired(p, e)
    ensures ExecutorRule(e).invalid == {} <==> ExecutorPermitted(e)
  {
  }

  lemma BaseContradicts(p: Platform, i: Inputs, e: Evidence)
    ensures BothAll(BaseRules(p, i, e)).invalid != {} <==> Contradicts(p, i, e)
  {
    EightInvalid(BaseRules(p, i, e));
    RulesContradict(p, i, e);
  }

  lemma LastNeverInvalidate(base: Findings, a: Findings, b: Findings)
    requires a.invalid == {} && b.invalid == {}
    ensures (if base.invalid != {} then base else Both(base, Both(a, b))).invalid == base.invalid
  {
  }

  /** The verdict is INVALID exactly when some evidence contradicts the rest. */
  lemma InvalidExactly(p: Platform, i: Inputs, e: Evidence)
    ensures Gathered(p, i, e).invalid != {} <==> Contradicts(p, i, e)
    ensures VerdictOf(Gathered(p, i, e)) == INVALID <==> Contradicts(p, i, e)
  {
    LastNeverInvalidate(BothAll(BaseRules(p, i, e)), ActionRule(e), OutcomeRule(i.evaluator, e));
    BaseContradicts(p, i, e);
  }
}
