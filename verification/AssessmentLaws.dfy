/** What holds of every returned assessment: its seal recomputes, it meets the clauses of the record schema, and it
    binds the receipts it was derived from. */
module AssessmentLaws {
  import opened Unicode
  import opened Values
  import opened Platform
  import opened Seal
  import opened Coherence
  import opened ReasonLists
  import opened Records
  import opened Derivation
  import opened Recording

  // ---------------------------------------------------------------- the seal

  /** What is returned with the outcome `s` is the draft with its hash in place. */
  lemma DraftSealed(p: Platform, rulesetHash: Text, i: Inputs, e: Evidence, s: Settled)
    requires DerivedFrom(p, rulesetHash, i, e, s).Ok?
    ensures HasMetadata(i.metadata)
    ensures var a, draft := DerivedFrom(p, rulesetHash, i, e, s).value, Compose(rulesetHash, i, e, s);
      && a.record == draft.(recordHash := a.record.recordHash)
      && RecordHash(p, ToJson(draft)) == Ok(a.record.recordHash)
      && a.disposition == DispositionOf(s.verdict)
  {
  }

  lemma SealOf(p: Platform, rulesetHash: Text, i: Inputs, e: Evidence, s: Settled, other: Text)
    requires DerivedFrom(p, rulesetHash, i, e, s).Ok?
    ensures var record := DerivedFrom(p, rulesetHash, i, e, s).value.record;
      && RecordHash(p, ToJson(record)) == Ok(record.recordHash)
      && RecordHash(p, ToJson(record.(recordHash := other))) == Ok(record.recordHash)
  {
    var record := DerivedFrom(p, rulesetHash, i, e, s).value.record;
    DraftSealed(p, rulesetHash, i, e, s);
    var draft := Compose(rulesetHash, i, e, s);
    SealOfRecord(draft, record.recordHash);
    SealOfRecord(draft, other);
    SealRecomputes(p, ToJson(draft), record.recordHash, Str(other));
  }

  /** The returned record recomputes to the hash it carries, and would with any other hash in that place. */
  lemma SealHolds(p: Platform, rulesetHash: Text, i: Inputs, e: Evidence, other: Text)
    requires Derived(p, rulesetHash, i, e).Ok?
    ensures var record := Derived(p, rulesetHash, i, e).value.record;
      && RecordHash(p, ToJson(record)) == Ok(record.recordHash)
      && RecordHash(p, ToJson(record.(recordHash := other))) == Ok(record.recordHash)
  {
    SealOf(p, rulesetHash, i, e, Outcome(p, i, e), other);
  }

  // ---------------------------------------------------------------- the schema's clauses

  /** Present, not empty, sorted and without repetition. */
  ghost predicate ListsReasons(list: Option<seq<Code>>) {
    list.Some? && list.value != [] && Increasing(list.value)
  }

  /** The schema's conditionals on verdict, evidence status, reason lists and routing. */
  ghost predicate MeetsVerdictClauses(r: Record) {
    && (r.verifierResult == VALID ==>
          r.evidenceStatus == COMPLETE && r.invalidityReasons.None? && r.unresolvedReasons.None?)
    && (r.verifierResult == INVALID ==> ListsReasons(r.invalidityReasons) && r.unresolvedReasons.None?)
    && (r.verifierResult == UNRESOLVED ==>
          && ListsReasons(r.unresolvedReasons) && r.invalidityReasons.None?
          && r.routing in {REVIEW_REQUIRED, HUMAN_DETERMINATION_REQUIRED, RECOVERY_REQUIRED, SECURITY_REVIEW_REQUIRED})
    && (r.evidenceStatus != COMPLETE ==> r.verifierResult != VALID)
  }

  predicate ActionClause(r: Record) {
    r.conformance.action == INDETERMINATE ==> r.verifierResult == UNRESOLVED
  }

  predicate ConsequenceClause(r: Record) {
    r.conformance.consequence == INDETERMINATE ==> r.verifierResult == UNRESOLVED
  }

  lemma OutcomeStatuses(p: Platform, i: Inputs, e: Evidence)
    ensures var f, s := Gathered(p, i, e), Outcome(p, i, e);
      && s.verdict == VerdictOf(f)
      && (s.verdict == INVALID ==> s.action == INDETERMINATE && s.consequence.status == INDETERMINATE)
      && (s.verdict == VALID ==> s.action != INDETERMINATE && s.consequence.status != INDETERMINATE)
  {
    VerdictIsMeet(p, i, e);
    ActionNeverInvalidates(p, i, e);
  }

  lemma ListingEmpty(s: set<Code>)
    ensures Listing(s) == [] <==> s == {}
  {
    EmptyList(Listing(s));
  }

  ghost predicate MeetsClauses(r: Record) {
    && MeetsVerdictClauses(r)
    && (r.verifierResult == VALID ==> r.conformance.action != INDETERMINATE && r.conformance.consequence != INDETERMINATE)
    && (ActionClause(r) <==> r.verifierResult != INVALID)
    && (ConsequenceClause(r) <==> r.verifierResult != INVALID)
    && Increasing(r.appliedRules)
  }

  lemma ComposeClauses(rulesetHash: Text, i: Inputs, e: Evidence, s: Settled, f: Findings)
    requires HasMetadata(i.metadata)
    requires OrderlyOutcome(i, e, s, f)
    ensures MeetsClauses(Compose(rulesetHash, i, e, s))
  {
    ListingEmpty(f.invalid);
    ListingEmpty(f.unresolved);
  }

  /** What the clauses ask of the outcome. */
  ghost predicate OrderlyOutcome(i: Inputs, e: Evidence, s: Settled, f: Findings) {
    && s.verdict == VerdictOf(f) && s.evidenceStatus == EvidenceStatusOf(f)
    && (s.verdict == INVALID ==> s.action == INDETERMINATE && s.consequence.status == INDETERMINATE)
    && (s.verdict == VALID ==> s.action != INDETERMINATE && s.consequence.status != INDETERMINATE)
    && s.routing
       == RoutingDisposition(s.verdict, s.action, s.consequence.status, e.executionStatus, i.nonceState, e.hasResidue)
    && Increasing(s.appliedRules)
    && s.invalid == Listing(f.invalid) && s.unresolved == Listing(f.unresolved)
  }

  lemma OutcomeOrderly(p: Platform, i: Inputs, e: Evidence)
    ensures OrderlyOutcome(i, e, Outcome(p, i, e), Gathered(p, i, e))
  {
    OutcomeStatuses(p, i, e);
  }

  lemma ClausesOf(p: Platform, rulesetHash: Text, i: Inputs, e: Evidence, s: Settled, f: Findings)
    requires DerivedFrom(p, rulesetHash, i, e, s).Ok? && OrderlyOutcome(i, e, s, f)
    ensures MeetsClauses(DerivedFrom(p, rulesetHash, i, e, s).value.record)
  {
    DraftSealed(p, rulesetHash, i, e, s);
    ComposeClauses(rulesetHash, i, e, s, f);
  }

  /** Every returned record meets the schema's conditionals on verdict, evidence, reasons and routing; no VALID
      record leaves a conformance open; and the schema's two clauses on open conformance hold exactly of the
      records that are not INVALID. */
  lemma SchemaClauses(p: Platform, rulesetHash: Text, i: Inputs, e: Evidence)
    requires Derived(p, rulesetHash, i, e).Ok?
    ensures MeetsClauses(Derived(p, rulesetHash, i, e).value.record)
  {
    OutcomeOrderly(p, i, e);
    ClausesOf(p, rulesetHash, i, e, Outcome(p, i, e), Gathered(p, i, e));
  }

  lemma RecoveryNeverValid(p: Platform, i: Inputs, e: Evidence)
    requires i.nonceState == IN_RECOVERY
    ensures VerdictOf(Gathered(p, i, e)) != VALID
  {
    ValidExactly(p, i, e);
  }

  /** The execution failed or left residue. */
  predicate Failed(e: Evidence) {
    e.executionStatus == Str(U("FAILED")) || e.executionStatus == Str(U("FAILED_DURING_EXECUTION")) || e.hasResidue
  }

  /** The execution was blocked or halted, or there was none. */
  predicate Stopped(e: Evidence, action: Conformance) {
    || Includes(NON_EXECUTION_STATUSES, e.executionStatus)
    || e.executionStatus == Str(U("HALTED"))
    || action == NOT_EXECUTED
  }

  /** Where a record sends its reader. */
  ghost predicate RoutedRightly(r: Record, i: Inputs, e: Evidence) {
    var action, consequence := r.conformance.action, r.conformance.consequence;
    var conforms := r.verifierResult == VALID && action != MISMATCH && consequence != MISMATCH;
    && (r.routing == RECOVERY_REQUIRED <==> r.verifierResult != INVALID && i.nonceState == IN_RECOVERY)
    && (r.routing == SECURITY_REVIEW_REQUIRED <==>
          r.verifierResult == INVALID || (r.verifierResult == VALID && action == MISMATCH))
    && (r.routing == HUMAN_DETERMINATION_REQUIRED <==>
          r.verifierResult == VALID && action != MISMATCH && consequence == MISMATCH)
    && (r.routing == REPAIR_CANDIDATE <==> conforms && Failed(e))
    && (r.routing == REVIEW_REQUIRED <==>
          || (r.verifierResult == UNRESOLVED && i.nonceState != IN_RECOVERY)
          || (conforms && !Failed(e) && Stopped(e, action)))
    && (r.routing == NONE_INDICATED <==> conforms && !Failed(e) && !Stopped(e, action))
    && (r.routing == NONE_INDICATED ==> action == MATCH)
  }

  /** The four actions a closed assessment can have found. */
  lemma ActionsOfValid(e: Evidence)
    requires ActionConformance(e) != INDETERMINATE
    ensures ActionConformance(e) in {MATCH, MISMATCH, NOT_EXECUTED}
  {
  }

  lemma ComposeRouted(rulesetHash: Text, i: Inputs, e: Evidence, s: Settled)
    requires HasMetadata(i.metadata)
    requires RoutableOutcome(i, e, s)
    ensures RoutedRightly(Compose(rulesetHash, i, e, s), i, e)
  {
  }

  predicate RoutableOutcome(i: Inputs, e: Evidence, s: Settled) {
    && s.routing
       == RoutingDisposition(s.verdict, s.action, s.consequence.status, e.executionStatus, i.nonceState, e.hasResidue)
    && (s.verdict == VALID ==> i.nonceState != IN_RECOVERY && s.action in {MATCH, MISMATCH, NOT_EXECUTED})
  }

  lemma RoutedOf(p: Platform, rulesetHash: Text, i: Inputs, e: Evidence, s: Settled)
    requires DerivedFrom(p, rulesetHash, i, e, s).Ok? && RoutableOutcome(i, e, s)
    ensures RoutedRightly(DerivedFrom(p, rulesetHash, i, e, s).value.record, i, e)
  {
    DraftSealed(p, rulesetHash, i, e, s);
    ComposeRouted(rulesetHash, i, e, s);
  }

  /** Recovery is asked for exactly when the nonce is in recovery and nothing is invalid, a security review exactly
      for an invalid record or a mismatched action, a human determination for a mismatched consequence, repair after
      a failure or residue, review where something is unresolved or was stopped; nothing is indicated exactly for the
      rest, and then the action was executed as authorized. */
  lemma RoutingExactly(p: Platform, rulesetHash: Text, i: Inputs, e: Evidence)
    requires Derived(p, rulesetHash, i, e).Ok?
    ensures RoutedRightly(Derived(p, rulesetHash, i, e).value.record, i, e)
  {
    OutcomeRouted(p, i, e);
    RoutedOf(p, rulesetHash, i, e, Outcome(p, i, e));
  }

  lemma OutcomeRouted(p: Platform, i: Inputs, e: Evidence)
    ensures RoutableOutcome(i, e, Outcome(p, i, e))
  {
    OutcomeStatuses(p, i, e);
    if Outcome(p, i, e).verdict == VALID {
      if i.nonceState == IN_RECOVERY {
        RecoveryNeverValid(p, i, e);
      }
      ActionsOfValid(e);
    }
  }

  // ---------------------------------------------------------------- what a closed record says

  /** The record repeats what the receipts say, and they agree: it names both receipts and follows the second; a
      matched action or consequence is one and the same on both sides, recorded if it is a hash and left out on both
      sides if it is not; its nonce is the admission's, spent. */
  ghost predicate Binds(r: Record, i: Inputs, e: Evidence) {
    && r.admissionReceiptHash == e.admissionHash == e.declaredAdmissionHash
    && r.consequenceReceiptHash == e.consequenceHash == r.previousRecordHash
    && (r.conformance.action == MATCH ==>
          && e.authorizedActionHash == e.actualActionHash
          && if IsHash(e.actualActionHash)
             then r.conformance.authorizedActionHash == r.conformance.actualActionHash == e.actualActionHash
             else r.conformance.authorizedActionHash.Undef? && r.conformance.actualActionHash.Null?)
    && (r.conformance.consequence == MATCH && r.conformance.mode == M_EXACT_HASH ==>
          r.conformance.contractHash == r.conformance.observedConsequenceHash == e.observedConsequenceHash)
    && (r.binding.Some? ==>
          && r.binding.value.nonce == e.admissionNonce && r.binding.value.nonceState == i.nonceState
          && Includes(TERMINAL_NONCE_STATES, r.binding.value.nonceState))
  }

  lemma MatchedAction(e: Evidence)
    requires ActionConformance(e) == MATCH
    ensures e.authorizedActionHash == e.actualActionHash
  {
  }

  lemma MatchedConsequence(e: Evidence, evaluator: Evaluator)
    requires ModeOf(e) == M_EXACT_HASH && ConsequenceConformance(e, evaluator).status == MATCH
    ensures ConsequenceConformance(e, evaluator).contractHash == e.observedConsequenceHash
    ensures IsHash(e.observedConsequenceHash)
  {
  }

  lemma ComposeBinds(rulesetHash: Text, i: Inputs, e: Evidence, s: Settled)
    requires HasMetadata(i.metadata) && BindingOutcome(i, e, s)
    ensures Binds(Compose(rulesetHash, i, e, s), i, e)
  {
  }

  predicate BindingOutcome(i: Inputs, e: Evidence, s: Settled) {
    && Bindings(i, e) && NonceSettled(i, e) && Truthy(i.nonceState)
    && (s.action == MATCH ==> e.authorizedActionHash == e.actualActionHash)
    && (s.consequence.status == MATCH && s.consequence.mode == M_EXACT_HASH ==>
          s.consequence.contractHash == e.observedConsequenceHash && IsHash(e.observedConsequenceHash))
  }

  lemma BindsOf(p: Platform, rulesetHash: Text, i: Inputs, e: Evidence, s: Settled)
    requires DerivedFrom(p, rulesetHash, i, e, s).Ok? && (s.verdict == VALID ==> BindingOutcome(i, e, s))
    requires DerivedFrom(p, rulesetHash, i, e, s).value.disposition == DERIVED
    ensures Binds(DerivedFrom(p, rulesetHash, i, e, s).value.record, i, e)
  {
    DraftSealed(p, rulesetHash, i, e, s);
    ComposeBinds(rulesetHash, i, e, s);
  }

  lemma OutcomeMatches(p: Platform, i: Inputs, e: Evidence)
    requires Outcome(p, i, e).verdict == VALID
    ensures BindingOutcome(i, e, Outcome(p, i, e))
  {
    VerdictIsMeet(p, i, e);
    ValidExactly(p, i, e);
    NonceCloses(i, e);
    ConsequenceFields(i, e, true);
    if ActionConformance(e) == MATCH {
      MatchedAction(e);
    }
    if ModeOf(e) == M_EXACT_HASH && ConsequenceConformance(e, i.evaluator).status == MATCH {
      MatchedConsequence(e, i.evaluator);
    }
  }

  /** A derived record binds the two receipts it was derived from. */
  lemma DerivedBinds(p: Platform, rulesetHash: Text, i: Inputs, e: Evidence)
    requires Derived(p, rulesetHash, i, e).Ok? && Derived(p, rulesetHash, i, e).value.disposition == DERIVED
    ensures Binds(Derived(p, rulesetHash, i, e).value.record, i, e)
  {
    if Outcome(p, i, e).verdict == VALID {
      OutcomeMatches(p, i, e);
    }
    BindsOf(p, rulesetHash, i, e, Outcome(p, i, e));
  }

  /** A contract, its evaluator and that evaluator's version are all on record. */
  predicate ContractClause(c: ConformanceRecord) {
    c.mode == M_CONTRACT ==>
      && IsHash(c.contractHash)
      && c.evaluatorId.Str? && c.evaluatorId.s != []
      && c.evaluatorVersion.Str? && IsSemver(c.evaluatorVersion.s)
  }

  predicate Usable(a: Answer) {
    a.Answer? && StatusOf(a.status).Some?
  }

  /** The evaluator's identity as the contract or, failing that, the answer gives it. */
  function EvaluatorIdentity(evaluation: Json, evaluator: Evaluator, key: Text): Json {
    var own := if evaluator.NoEvaluator? || evaluator.answer.NoAnswer? then Null
               else if key == EVALUATOR_ID then evaluator.answer.evaluatorId else evaluator.answer.evaluatorVersion;
    if Truthy(Get(evaluation, key)) then Get(evaluation, key) else own
  }

  lemma ContractOfConformance(i: Inputs, e: Evidence, clean: bool)
    ensures ContractClause(ConformanceOf(e, ActionOf(e, clean), ConsequenceOf(i, e, clean)))
      <==> (ModeOf(e) == M_CONTRACT ==> clean && ContractNamed(i.evaluator, e))
  {
  }

  /** A consequence was observed, no unusable answer came back, and the contract names its hash and evaluator. */
  predicate ContractNamed(evaluator: Evaluator, e: Evidence) {
    var id := EvaluatorIdentity(e.evaluation, evaluator, EVALUATOR_ID);
    var version := EvaluatorIdentity(e.evaluation, evaluator, EVALUATOR_VERSION);
    && !e.observedConsequenceHash.Null?
    && (evaluator.Evaluator? ==> Usable(evaluator.answer))
    && IsHash(Get(e.evaluation, CONTRACT_HASH))
    && id.Str? && id.s != []
    && version.Str? && IsSemver(version.s)
  }

  /** The contract clause holds of the record exactly when, in contract mode, nothing is invalid and contract and
      evaluator are named. */
  predicate ContractRecorded(r: Record, i: Inputs, e: Evidence) {
    ContractClause(r.conformance)
    <==> (ModeOf(e) == M_CONTRACT ==> r.verifierResult != INVALID && ContractNamed(i.evaluator, e))
  }

  /** Action and consequence are judged only if nothing is invalid. */
  predicate SkippingOutcome(i: Inputs, e: Evidence, s: Settled) {
    var clean := s.verdict != INVALID;
    s.action == ActionOf(e, clean) && s.consequence == ConsequenceOf(i, e, clean)
  }

  lemma OutcomeSkips(p: Platform, i: Inputs, e: Evidence)
    ensures SkippingOutcome(i, e, Outcome(p, i, e))
  {
    VerdictIsMeet(p, i, e);
  }

  lemma ContractOf(p: Platform, rulesetHash: Text, i: Inputs, e: Evidence, s: Settled)
    requires DerivedFrom(p, rulesetHash, i, e, s).Ok?
    requires SkippingOutcome(i, e, s)
    ensures ContractRecorded(DerivedFrom(p, rulesetHash, i, e, s).value.record, i, e)
  {
    DraftSealed(p, rulesetHash, i, e, s);
    ContractOfConformance(i, e, s.verdict != INVALID);
  }

  /** The schema's clause on contracts holds of a returned record exactly when, in contract mode, nothing is
      invalid and contract and evaluator are named; otherwise the record has nulls where the schema wants them. */
  lemma ContractClauseExactly(p: Platform, rulesetHash: Text, i: Inputs, e: Evidence)
    requires Derived(p, rulesetHash, i, e).Ok?
    ensures ContractRecorded(Derived(p, rulesetHash, i, e).value.record, i, e)
  {
    OutcomeSkips(p, i, e);
    ContractOf(p, rulesetHash, i, e, Outcome(p, i, e));
  }
}
