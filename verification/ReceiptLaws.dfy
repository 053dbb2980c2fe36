/** Assessments in terms of the two receipts: when they are derived, what their reasons are, where they are routed, and
    what the record says. */
module ReceiptLaws {
  import opened Unicode
  import opened Values
  import opened Platform
  import opened Receipts
  import opened Gate
  import opened Seal
  import opened Coherence
  import opened Readings
  import opened ReasonLists
  import opened Records
  import opened Derivation
  import opened Recording
  import opened AssessmentLaws

  /** The assessment of two receipts. */
  ghost function Assessed(p: Platform, rulesetHash: Text, i: Inputs): Result<Assessment> {
    Derived(p, rulesetHash, i, Extract(i.admission, i.consequence))
  }

  // ---------------------------------------------------------------- metadata

  predicate NonEmptyText(v: Json) { v.Str? && v.s != [] }

  predicate Dated(p: Platform, v: Json) { v.Str? && p.dateParse(v).Some? }

  predicate Versioned(v: Json) { v.Str? && IsSemver(v.s) }

  /** The metadata is complete, or the error names the first thing that is not. */
  lemma MetadataExactly(p: Platform, m: Json)
    ensures var error := MetadataError(p, m);
      var named, dated := NonEmptyText(Get(m, RECORD_ID)), Dated(p, Get(m, CREATED_AT));
      var versioned := Versioned(Get(m, VERIFIER_VERSION));
      && (error.None? <==> m.Obj? && named && dated && versioned)
      && (error == Some(METADATA_REQUIRED) <==> !m.Obj?)
      && (error == Some(RECORD_ID_REQUIRED) <==> m.Obj? && !named)
      && (error == Some(CREATED_AT_REQUIRED) <==> m.Obj? && named && !dated)
      && (error == Some(VERIFIER_VERSION_REQUIRED) <==> m.Obj? && named && dated && !versioned)
  {
  }

  // ---------------------------------------------------------------- dispositions

  /** Whatever outcome: the record's disposition is that of its verdict, and so is the record. */
  lemma VerdictRecorded(p: Platform, rulesetHash: Text, i: Inputs, e: Evidence, s: Settled)
    requires DerivedFrom(p, rulesetHash, i, e, s).Ok?
    ensures var a := DerivedFrom(p, rulesetHash, i, e, s).value;
      && a.disposition == DispositionOf(s.verdict) && a.record.verifierResult == s.verdict
  {
    DraftSealed(p, rulesetHash, i, e, s);
  }

  predicate DisposedBy(a: Assessment, closes: bool, contradicts: bool) {
    && (a.disposition == DERIVED <==> closes)
    && (a.disposition == REFUSED_INVALID <==> contradicts)
    && (a.disposition == REFUSED_UNRESOLVED <==> !closes && !contradicts)
    && (a.record.verifierResult == VALID <==> closes)
    && (a.record.verifierResult == INVALID <==> contradicts)
  }

  /** Some contradiction is there. */
  ghost predicate ReceiptsContradict(p: Platform, i: Inputs) {
    exists code :: InvalidFor(p, i, code)
  }

  lemma ListedContradiction(p: Platform, i: Inputs, f: Findings)
    requires forall code :: code in f.invalid <==> InvalidFor(p, i, code)
    ensures VerdictOf(f) == INVALID <==> ReceiptsContradict(p, i)
  {
    if f.invalid != {} {
      var code :| code in f.invalid;
      assert InvalidFor(p, i, code);
    }
  }

  lemma GatheredContradiction(p: Platform, i: Inputs)
    ensures VerdictOf(Gathered(p, i, Extract(i.admission, i.consequence))) == INVALID <==> ReceiptsContradict(p, i)
  {
    var f := Gathered(p, i, Extract(i.admission, i.consequence));
    forall code ensures code in f.invalid <==> InvalidFor(p, i, code) {
      ReasonsExactly(p, i, code);
    }
    ListedContradiction(p, i, f);
  }

  lemma ContradictsExactly(p: Platform, i: Inputs)
    ensures Contradicts(p, i, Extract(i.admission, i.consequence)) <==> ReceiptsContradict(p, i)
  {
    InvalidExactly(p, i, Extract(i.admission, i.consequence));
    GatheredContradiction(p, i);
  }

  lemma Disposed(p: Platform, rulesetHash: Text, i: Inputs, e: Evidence, s: Settled)
    requires DerivedFrom(p, rulesetHash, i, e, s).Ok? && Settles(p, i, e, s)
    ensures DisposedBy(DerivedFrom(p, rulesetHash, i, e, s).value, Closes(p, i, e), Contradicts(p, i, e))
  {
    VerdictRecorded(p, rulesetHash, i, e, s);
  }

  lemma DisposedOfEvidence(p: Platform, rulesetHash: Text, i: Inputs, e: Evidence)
    requires Derived(p, rulesetHash, i, e).Ok?
    ensures DisposedBy(Derived(p, rulesetHash, i, e).value, Closes(p, i, e), Contradicts(p, i, e))
  {
    OutcomeSettles(p, i, e);
    Disposed(p, rulesetHash, i, e, Outcome(p, i, e));
  }

  /** An assessment is DERIVED exactly if the receipts' own members close, REFUSED_INVALID exactly if they contradict
      each other, and REFUSED_UNRESOLVED otherwise. */
  lemma DisposedExactly(p: Platform, rulesetHash: Text, i: Inputs)
    requires Assessed(p, rulesetHash, i).Ok?
    ensures DisposedBy(Assessed(p, rulesetHash, i).value, ReceiptsClose(p, i), ReceiptsContradict(p, i))
  {
    DisposedOfEvidence(p, rulesetHash, i, Extract(i.admission, i.consequence));
    ClosesExactly(p, i);
    ContradictsExactly(p, i);
  }

  /** In particular a consequence receipt that names another admission receipt is refused as invalid, with that reason. */
  lemma OtherAdmissionRefused(p: Platform, rulesetHash: Text, i: Inputs)
    requires Assessed(p, rulesetHash, i).Ok?
    requires IsHash(HashIn(i.admission)) && Get(i.consequence, ADMISSION_RECEIPT_HASH) != HashIn(i.admission)
    ensures Assessed(p, rulesetHash, i).value.disposition == REFUSED_INVALID
    ensures InvalidFor(p, i, ADMISSION_RECEIPT_BINDING_MISMATCH)
  {
    assert LinkInvalid(i.admission, i.consequence, ADMISSION_RECEIPT_BINDING_MISMATCH);
    assert InvalidFor(p, i, ADMISSION_RECEIPT_BINDING_MISMATCH);
    DisposedExactly(p, rulesetHash, i);
  }

  // ---------------------------------------------------------------- reasons, evidence status, rules

  /** What the findings `f` leave in an outcome. */
  ghost predicate Lists(s: Settled, f: Findings) {
    && s.verdict == VerdictOf(f)
    && s.invalid == Listing(f.invalid) && s.unresolved == Listing(f.unresolved)
    && s.evidenceStatus == EvidenceStatusOf(f)
    && s.appliedRules == Listing(AppliedRules(f.invalid == {}))
  }

  lemma OutcomeLists(p: Platform, i: Inputs, e: Evidence)
    ensures Lists(Outcome(p, i, e), Gathered(p, i, e))
  {
    VerdictIsMeet(p, i, e);
  }

  /** What they leave in the record. */
  ghost predicate Listed(r: Record, f: Findings) {
    && r.verifierResult == VerdictOf(f)
    && r.invalidityReasons == (if f.invalid != {} then Some(Listing(f.invalid)) else None)
    && r.unresolvedReasons == (if f.invalid == {} && f.unresolved != {} then Some(Listing(f.unresolved)) else None)
    && r.evidenceStatus == EvidenceStatusOf(f)
    && r.appliedRules == Listing(AppliedRules(f.invalid == {}))
  }

  lemma ListedFrom(p: Platform, rulesetHash: Text, i: Inputs, e: Evidence, s: Settled, f: Findings)
    requires DerivedFrom(p, rulesetHash, i, e, s).Ok? && Lists(s, f)
    ensures Listed(DerivedFrom(p, rulesetHash, i, e, s).value.record, f)
  {
    DraftSealed(p, rulesetHash, i, e, s);
  }

  lemma ListedOfEvidence(p: Platform, rulesetHash: Text, i: Inputs, e: Evidence)
    requires Derived(p, rulesetHash, i, e).Ok?
    ensures Listed(Derived(p, rulesetHash, i, e).value.record, Gathered(p, i, e))
  {
    OutcomeLists(p, i, e);
    ListedFrom(p, rulesetHash, i, e, Outcome(p, i, e), Gathered(p, i, e));
  }

  lemma InListing(s: set<Code>, code: Code)
    ensures code in Listing(s) <==> code in s
  {
    assert code in Listing(s) <==> code in Elements(Listing(s));
  }

  /** Whether the record lists the code among its reasons. */
  predicate GivesReason(r: Record, code: Code) {
    || (r.invalidityReasons.Some? && code in r.invalidityReasons.value)
    || (r.unresolvedReasons.Some? && code in r.unresolvedReasons.value)
  }

  lemma ReasonGiven(r: Record, f: Findings, code: Code)
    requires Listed(r, f)
    ensures GivesReason(r, code) <==> if r.verifierResult == INVALID then code in f.invalid else code in f.unresolved
    ensures r.invalidityReasons.Some? <==> r.verifierResult == INVALID
    ensures r.unresolvedReasons.Some? <==> r.verifierResult == UNRESOLVED
  {
    InListing(f.invalid, code);
    InListing(f.unresolved, code);
  }

  /** A record gives exactly the reasons that hold of the two receipts: of an invalid record the contradictions, of any
      other what is missing or left open. */
  lemma ReasonsGivenExactly(p: Platform, rulesetHash: Text, i: Inputs, code: Code)
    requires Assessed(p, rulesetHash, i).Ok?
    ensures var r := Assessed(p, rulesetHash, i).value.record;
      && (GivesReason(r, code) <==>
            if r.verifierResult == INVALID then InvalidFor(p, i, code) else UnresolvedFor(i, true, code))
      && (r.invalidityReasons.Some? <==> r.verifierResult == INVALID)
      && (r.unresolvedReasons.Some? <==> r.verifierResult == UNRESOLVED)
  {
    var e := Extract(i.admission, i.consequence);
    ListedOfEvidence(p, rulesetHash, i, e);
    ReasonGiven(Assessed(p, rulesetHash, i).value.record, Gathered(p, i, e), code);
    ReasonsExactly(p, i, code);
  }

  /** Whether something is contradictory, nothing is missing, or something is unavailable. */
  ghost predicate StatusFits(r: Record) {
    && (r.evidenceStatus == CONTRADICTORY <==> r.verifierResult == INVALID)
    && (r.evidenceStatus == COMPLETE <==> r.verifierResult == VALID)
    && (r.evidenceStatus == UNAVAILABLE <==>
          && r.unresolvedReasons.Some?
          && exists code | code in r.unresolvedReasons.value :: EndsWith(code, U("UNAVAILABLE")))
  }

  /** The seven rules always applied, and the last two where nothing is invalid. */
  predicate RuleApplied(code: Code, clean: bool) {
    || code in {CAR_EVIDENCE, CAR_CHAIN, CAR_NONCE, CAR_REPLAY, CAR_TIME, CAR_EXECUTOR, CAR_PROFILE}
    || (clean && code in {CAR_ACTION, CAR_OUTCOME})
  }

  ghost predicate RulesFit(r: Record) {
    && Increasing(r.appliedRules)
    && forall code: Code :: code in r.appliedRules <==> RuleApplied(code, r.verifierResult != INVALID)
  }

  lemma AppliedExactly(clean: bool, code: Code)
    ensures code in Listing(AppliedRules(clean)) <==> RuleApplied(code, clean)
  {
    InListing(AppliedRules(clean), code);
  }

  lemma RulesOfListed(r: Record, f: Findings)
    requires Listed(r, f)
    ensures RulesFit(r)
  {
    forall code: Code ensures code in r.appliedRules <==> RuleApplied(code, f.invalid == {}) {
      AppliedExactly(f.invalid == {}, code);
    }
  }

  lemma UnavailableListed(s: set<Code>)
    ensures (exists code | code in Listing(s) :: EndsWith(code, U("UNAVAILABLE")))
      <==> (exists code | code in s :: EndsWith(code, ENDING))
  {
    forall code: Code ensures code in Listing(s) <==> code in s {
      InListing(s, code);
    }
  }

  lemma StatusOfListed(r: Record, f: Findings)
    requires Listed(r, f)
    ensures StatusFits(r)
  {
    UnavailableListed(f.unresolved);
  }

  /** The record's evidence status and applied rules fit its verdict and its reasons. */
  lemma StatusExactly(p: Platform, rulesetHash: Text, i: Inputs)
    requires Assessed(p, rulesetHash, i).Ok?
    ensures StatusFits(Assessed(p, rulesetHash, i).value.record) && RulesFit(Assessed(p, rulesetHash, i).value.record)
  {
    var e := Extract(i.admission, i.consequence);
    ListedOfEvidence(p, rulesetHash, i, e);
    StatusOfListed(Assessed(p, rulesetHash, i).value.record, Gathered(p, i, e));
    RulesOfListed(Assessed(p, rulesetHash, i).value.record, Gathered(p, i, e));
  }

  // ---------------------------------------------------------------- what the record says

  /** The hash, or sixty-four zeros where there is none. */
  predicate HashOrZeros(v: Json, hash: Json) {
    if IsHash(hash) then v == hash else v.Str? && |v.s| == 64 && forall k | 0 <= k < 64 :: v.s[k] == 0x30
  }

  /** Metadata, receipt hashes and chain position are as given. */
  predicate HeadingSays(r: Record, i: Inputs, rulesetHash: Text) {
    var position := Get(Get(i.consequence, CHAIN), CHAIN_POSITION);
    && Str(r.recordId) == Get(i.metadata, RECORD_ID)
    && Str(r.createdAt) == Get(i.metadata, CREATED_AT)
    && Str(r.verifierVersion) == Get(i.metadata, VERIFIER_VERSION)
    && r.rulesetHash == rulesetHash
    && HashOrZeros(r.admissionReceiptHash, HashIn(i.admission))
    && HashOrZeros(r.consequenceReceiptHash, HashIn(i.consequence))
    && HashOrZeros(r.previousRecordHash, HashIn(i.consequence))
    && r.chainPosition == (if position.Num? && SafeInteger(position.n) then position.n + 1 else 2)
  }

  predicate SafeOrLeftOut(v: Json, source: Json) {
    v == if source.Num? && SafeInteger(source.n) then source else Undef
  }

  /** An execution is bound where it has an id and a nonce. */
  predicate BindingSays(b: Option<Binding>, c: Json, nonceState: Json) {
    && (b.Some? <==> Get(c, EXECUTION_ID).Str? && !NonceIn(c).Null?)
    && (b.Some? ==>
          && Str(b.value.executionId) == Get(c, EXECUTION_ID)
          && b.value.nonce == NonceIn(c)
          && b.value.nonceState == (if Truthy(nonceState) then nonceState else Str(U("RECOVERY_REQUIRED")))
          && SafeOrLeftOut(b.value.attempt, Get(c, EXECUTION_ATTEMPT))
          && b.value.mandateId == (if Get(c, MANDATE_ID).Str? then Get(c, MANDATE_ID) else Undef)
          && SafeOrLeftOut(b.value.occurrence, Get(c, OCCURRENCE_INDEX)))
  }

  /** No evaluator, or one with a usable answer. */
  predicate Consulted(evaluator: Evaluator) {
    || evaluator.NoEvaluator?
    || Answers(evaluator, U("MATCH")) || Answers(evaluator, U("MISMATCH")) || Answers(evaluator, U("INDETERMINATE"))
  }

  /** Whether the evaluation of the consequence reached the evaluator's contract. */
  predicate ContractReached(i: Inputs, clean: bool) {
    && clean && !ObservedIn(i.consequence).Null? && ModeIn(i.admission) == Str(U("CONTRACT"))
    && Consulted(i.evaluator)
  }

  predicate HashCompared(i: Inputs, clean: bool) {
    && clean && !ObservedIn(i.consequence).Null? && ModeIn(i.admission) == Str(U("EXACT_HASH"))
    && IsHash(ExpectedIn(i.admission))
  }

  function IdOf(evaluator: Evaluator): Json {
    if evaluator.Evaluator? && evaluator.answer.Answer? then evaluator.answer.evaluatorId else Undef
  }

  function VersionIn(evaluator: Evaluator): Json {
    if evaluator.Evaluator? && evaluator.answer.Answer? then evaluator.answer.evaluatorVersion else Undef
  }

  /** Hashes, mode and evaluator; nothing is judged where something is invalid. */
  predicate ConformanceSays(r: ConformanceRecord, i: Inputs, clean: bool) {
    var a, c := i.admission, i.consequence;
    && r.mode == ModeIn(a)
    && r.authorizedActionHash == (if IsHash(AuthorizedActionIn(a)) then AuthorizedActionIn(a) else Undef)
    && r.actualActionHash == (if IsHash(ActualActionIn(c)) then ActualActionIn(c) else Null)
    && r.observedConsequenceHash == (if IsHash(ObservedIn(c)) then ObservedIn(c) else Null)
    && r.contractHash == (if HashCompared(i, clean) then ExpectedIn(a)
                          else if ContractReached(i, clean) && IsHash(ContractIn(a)) then ContractIn(a)
                          else Null)
    && r.evaluatorId == (if ContractReached(i, clean)
                         then FirstTruthy([Get(EvaluationIn(a), EVALUATOR_ID), IdOf(i.evaluator)]) else Null)
    && r.evaluatorVersion == (if ContractReached(i, clean)
                              then FirstTruthy([Get(EvaluationIn(a), EVALUATOR_VERSION), VersionIn(i.evaluator)])
                              else Null)
  }

  lemma HeadingOf(rulesetHash: Text, i: Inputs, e: Evidence, s: Settled)
    requires HasMetadata(i.metadata) && ReadFrom(e, i.admission, i.consequence)
    ensures HeadingSays(Compose(rulesetHash, i, e, s), i, rulesetHash)
  {
  }

  lemma BindingOfEvidence(i: Inputs, e: Evidence)
    requires ReadFrom(e, i.admission, i.consequence)
    ensures BindingSays(BindingOf(i.consequence, e, i.nonceState), i.consequence, i.nonceState)
  {
    var c := i.consequence;
    FirstTruthyOrNull([Get(c, AUTHORIZATION_NONCE), Get(Get(c, APPROVAL), NONCE)]);
  }

  lemma EvaluationMember(a: Json, key: Text)
    requires key != MODE
    ensures Get(EvaluationOf(a), key) == Get(EvaluationIn(a), key)
  {
    AdmissionRead(a);
    if EvaluationIn(a).Null? {
      var m := Member(MODE, Str(U("NONE")));
      assert [m] + [] == [m];
      LookupCons(m, [], key);
    }
  }

  /** What the consequence keeps of its evaluation. */
  predicate KeptOf(c: Consequence, evaluator: Evaluator, reached: bool, compared: bool, evaluation: Json,
                   expected: Json) {
    && c.contractHash == (if compared then expected
                          else if reached then Or(Get(evaluation, CONTRACT_HASH), Null) else Null)
    && c.evaluatorId == (if reached then Or(Get(evaluation, EVALUATOR_ID), Or(IdOf(evaluator), Null)) else Null)
    && c.evaluatorVersion
       == (if reached then Or(Get(evaluation, EVALUATOR_VERSION), Or(VersionIn(evaluator), Null)) else Null)
  }

  lemma ContractKeeps(evaluation: Json, evaluator: Evaluator)
    ensures KeptOf(ContractConformance(evaluation, evaluator), evaluator, Consulted(evaluator), false, evaluation, Null)
  {
    if evaluator.Evaluator? && evaluator.answer.Answer? {
      StatusesRead(evaluator.answer.status);
    }
  }

  lemma ConformanceKeeps(e: Evidence, evaluator: Evaluator, mode: Json, expected: Json)
    requires mode == ModeOf(e)
    requires expected == Or(Get(e.evaluation, CONTRACT_HASH), Or(Get(e.evaluation, EXPECTED_HASH), Null))
    ensures var observed := !e.observedConsequenceHash.Null?;
      KeptOf(ConsequenceConformance(e, evaluator), evaluator,
             observed && mode == Str(U("CONTRACT")) && Consulted(evaluator),
             observed && mode == Str(U("EXACT_HASH")) && IsHash(expected), e.evaluation, expected)
  {
    ModesDiffer();
    ContractKeeps(e.evaluation, evaluator);
  }

  lemma ConsequenceKeeps(i: Inputs, e: Evidence, clean: bool)
    requires e == Extract(i.admission, i.consequence)
    ensures KeptOf(ConsequenceOf(i, e, clean), i.evaluator, ContractReached(i, clean), HashCompared(i, clean),
                   e.evaluation, ExpectedIn(i.admission))
  {
    ExtractReads(i.admission, i.consequence);
    ModeRead(i.admission);
    ConformanceKeeps(e, i.evaluator, ModeIn(i.admission), ExpectedIn(i.admission));
  }

  lemma KeptFields(r: ConformanceRecord, e: Evidence, c: Consequence, i: Inputs, clean: bool)
    requires e == Extract(i.admission, i.consequence) && c.mode == ModeIn(i.admission)
    requires KeptOf(c, i.evaluator, ContractReached(i, clean), HashCompared(i, clean), e.evaluation,
                    ExpectedIn(i.admission))
    requires r == ConformanceOf(e, r.action, c)
    ensures ConformanceSays(r, i, clean)
  {
    var a := i.admission;
    var found := EvaluationIn(a);
    ExtractReads(a, i.consequence);
    ModesDiffer();
    EvaluationKeys();
    EvaluationMember(a, CONTRACT_HASH);
    EvaluationMember(a, EVALUATOR_ID);
    EvaluationMember(a, EVALUATOR_VERSION);
    FirstOfOne(Get(found, CONTRACT_HASH));
    FirstOfTwo(Get(found, EVALUATOR_ID), IdOf(i.evaluator));
    FirstOfTwo(Get(found, EVALUATOR_VERSION), VersionIn(i.evaluator));
  }

  lemma EvaluationKeys()
    ensures CONTRACT_HASH != MODE && EVALUATOR_ID != MODE && EVALUATOR_VERSION != MODE
  {
    assert |MODE| == 4 && |CONTRACT_HASH| == 13 && |EVALUATOR_ID| == 12 && |EVALUATOR_VERSION| == 17;
  }

  lemma ConformanceOfEvidence(i: Inputs, e: Evidence, clean: bool)
    requires e == Extract(i.admission, i.consequence)
    ensures ConformanceSays(ConformanceOf(e, ActionOf(e, clean), ConsequenceOf(i, e, clean)), i, clean)
  {
    ConsequenceKeeps(i, e, clean);
    ModeRead(i.admission);
    KeptFields(ConformanceOf(e, ActionOf(e, clean), ConsequenceOf(i, e, clean)), e, ConsequenceOf(i, e, clean), i, clean);
  }

  /** The statuses on record are those of the two receipts, or open where something is invalid. */
  predicate StatusesSay(r: Record, i: Inputs) {
    if r.verifierResult == INVALID then r.conformance.action == r.conformance.consequence == INDETERMINATE
    else
      && ActionIs(r.conformance.action, i.admission, i.consequence)
      && OutcomeIs(r.conformance.consequence, ObservedIn(i.consequence), i.evaluator, ModeIn(i.admission),
                   ExpectedIn(i.admission))
  }

  /** Everything in the record but verdict, reasons and routing, in terms of the two receipts and the metadata. */
  predicate RecordSays(r: Record, i: Inputs, rulesetHash: Text) {
    && HeadingSays(r, i, rulesetHash)
    && BindingSays(r.binding, i.consequence, i.nonceState)
    && ConformanceSays(r.conformance, i, r.verifierResult != INVALID)
    && StatusesSay(r, i)
  }

  lemma ComposedSays(rulesetHash: Text, i: Inputs, e: Evidence, s: Settled)
    requires HasMetadata(i.metadata) && e == Extract(i.admission, i.consequence) && SkippingOutcome(i, e, s)
    ensures RecordSays(Compose(rulesetHash, i, e, s), i, rulesetHash)
  {
    ExtractReads(i.admission, i.consequence);
    HeadingOf(rulesetHash, i, e, s);
    BindingOfEvidence(i, e);
    ConformanceOfEvidence(i, e, s.verdict != INVALID);
    ActionExactly(i.admission, i.consequence);
    OutcomeExactly(i.admission, i.consequence, i.evaluator);
  }

  lemma SaysFrom(p: Platform, rulesetHash: Text, i: Inputs, e: Evidence, s: Settled)
    requires DerivedFrom(p, rulesetHash, i, e, s).Ok?
    requires e == Extract(i.admission, i.consequence) && SkippingOutcome(i, e, s)
    ensures RecordSays(DerivedFrom(p, rulesetHash, i, e, s).value.record, i, rulesetHash)
  {
    DraftSealed(p, rulesetHash, i, e, s);
    ComposedSays(rulesetHash, i, e, s);
  }

  /** The record says what the receipts say. */
  lemma RecordExactly(p: Platform, rulesetHash: Text, i: Inputs)
    requires Assessed(p, rulesetHash, i).Ok?
    ensures RecordSays(Assessed(p, rulesetHash, i).value.record, i, rulesetHash)
  {
    var e := Extract(i.admission, i.consequence);
    OutcomeSkips(p, i, e);
    SaysFrom(p, rulesetHash, i, e, Outcome(p, i, e));
  }
}
