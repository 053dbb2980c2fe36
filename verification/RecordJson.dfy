/** What the JSON form of an assessment record says under each of its names. */
module RecordJson {
  import opened Unicode
  import opened Values
  import opened Seal
  import opened Coherence
  import opened Records

  // ---------------------------------------------------------------- the names

  const N_ACTION_CONFORMANCE: Text := U("action_conformance")
  const N_ACTUAL_ACTION_HASH: Text := U("actual_action_hash")
  const N_ADMISSION_RECEIPT_HASH: Text := U("admission_receipt_hash")
  const N_APPLIED_RULE_CODES: Text := U("applied_rule_codes")
  const N_AUTHORIZATION_NONCE: Text := U("authorization_nonce")
  const N_AUTHORIZATION_NONCE_STATE: Text := U("authorization_nonce_state")
  const N_AUTHORIZED_ACTION_HASH: Text := U("authorized_action_hash")
  const N_AUTHORIZED_CONSEQUENCE_CONTRACT_HASH: Text := U("authorized_consequence_contract_hash")
  const N_CANONICALIZATION: Text := U("canonicalization")
  const N_CHAIN: Text := U("chain")
  const N_CHAIN_POSITION: Text := U("chain_position")
  const N_COHERENCE_ASSESSMENT: Text := U("coherence_assessment")
  const N_CONFORMANCE: Text := U("conformance")
  const N_CONSEQUENCE_CONFORMANCE: Text := U("consequence_conformance")
  const N_CONSEQUENCE_EVALUATION_MODE: Text := U("consequence_evaluation_mode")
  const N_CONSEQUENCE_EVALUATOR_ID: Text := U("consequence_evaluator_id")
  const N_CONSEQUENCE_EVALUATOR_VERSION: Text := U("consequence_evaluator_version")
  const N_CONSEQUENCE_RECEIPT_HASH: Text := U("consequence_receipt_hash")
  const N_CREATED_AT: Text := U("created_at")
  const N_EVALUATION_PROFILE: Text := U("evaluation_profile")
  const N_EVALUATION_PROFILE_VERSION: Text := U("evaluation_profile_version")
  const N_EVIDENCE_STATUS: Text := U("evidence_status")
  const N_EXECUTION_ATTEMPT: Text := U("execution_attempt")
  const N_EXECUTION_BINDING: Text := U("execution_binding")
  const N_EXECUTION_ID: Text := U("execution_id")
  const N_HASH_ALGORITHM: Text := U("hash_algorithm")
  const N_INVALIDITY_REASONS: Text := U("invalidity_reasons")
  const N_MANDATE_ID: Text := U("mandate_id")
  const N_OBSERVED_CONSEQUENCE_HASH: Text := U("observed_consequence_hash")
  const N_OCCURRENCE_INDEX: Text := U("occurrence_index")
  const N_PREVIOUS_RECORD_HASH: Text := U("previous_record_hash")
  const N_RECORD_HASH: Text := U("record_hash")
  const N_RECORD_ID: Text := U("record_id")
  const N_RECORD_TYPE: Text := U("record_type")
  const N_RECORD_VERSION: Text := U("record_version")
  const N_ROUTING_DISPOSITION: Text := U("routing_disposition")
  const N_RULESET_HASH: Text := U("ruleset_hash")
  const N_UNRESOLVED_REASONS: Text := U("unresolved_reasons")
  const N_VERIFIER: Text := U("verifier")
  const N_VERIFIER_ID: Text := U("verifier_id")
  const N_VERIFIER_RESULT: Text := U("verifier_result")
  const N_VERIFIER_VERSION: Text := U("verifier_version")

  const SEMANTIC_VERIFIER: Text := U("MUS_SEMANTIC_VERIFIER")
  const ATTESTATION_SEMANTICS: Text := U("MUS-CONSEQUENCE-ATTESTATION-SEMANTICS")
  const PROFILE_1_1_0: Text := U("1.1.0")

  // ---------------------------------------------------------------- telling names apart

  /** Length and fourth unit of a name: enough to tell the names of one object apart. */
  function Mark(key: Text): int {
    |key| * 0x100 + if |key| > 3 then key[3] else 0
  }

  predicate Marked(ms: seq<Member<Json>>, marks: seq<int>) {
    |ms| == |marks| && forall k | 0 <= k < |ms| :: Mark(ms[k].key) == marks[k]
  }

  predicate Different(marks: seq<int>) {
    forall j, k | 0 <= j < k < |marks| :: marks[j] != marks[k]
  }

  lemma MarkedDistinct(ms: seq<Member<Json>>, marks: seq<int>)
    requires Marked(ms, marks) && Different(marks)
    ensures Distinct(ms)
  {
    forall j, k | 0 <= j < k < |ms| ensures ms[j].key != ms[k].key {
      assert Mark(ms[j].key) == marks[j] != marks[k] == Mark(ms[k].key);
    }
  }

  lemma InFront(ms: seq<Member<Json>>, marks: seq<int>, rest: seq<Member<Json>>, k: nat, key: Text, value: Json)
    requires Marked(ms, marks) && Different(marks) && k < |ms| && ms[k] == Member(key, value)
    ensures Lookup(ms + rest, key) == value
  {
    MarkedDistinct(ms, marks);
    LookupAt(ms, k);
    LookupConcat(ms, rest, key);
    assert ms[k].key in Keys(ms);
  }

  lemma Behind(ms: seq<Member<Json>>, marks: seq<int>, rest: seq<Member<Json>>, key: Text)
    requires Marked(ms, marks) && Mark(key) !in marks
    ensures Lookup(ms + rest, key) == Lookup(rest, key)
  {
    forall k | 0 <= k < |ms| ensures ms[k].key != key {
      assert marks[k] in marks;
    }
    LookupConcat(ms, rest, key);
  }

  lemma OptionalThen(key: Text, value: Json, rest: seq<Member<Json>>, other: Text)
    ensures Lookup(Optional(key, value) + rest, other)
      == if other == key && !value.Undef? then value else Lookup(rest, other)
  {
    if value.Undef? {
      assert Optional(key, value) + rest == rest;
    } else {
      LookupCons(Member(key, value), rest, other);
    }
  }

  // ---------------------------------------------------------------- section by section

  const HEADING: seq<int> := [3695, 2927, 2415, 2657, 4207, 3688, 5737, 6259]

  lemma HeadingMarked(r: Record)
    ensures Marked(Heading(r), HEADING) && Different(HEADING)
  {
  }

  lemma HeadingRead(r: Record, rest: seq<Member<Json>>)
    ensures var ms := Heading(r) + rest;
      && Lookup(ms, N_RECORD_VERSION) == Str(U("1.0.0"))
      && Lookup(ms, N_RECORD_TYPE) == Str(N_COHERENCE_ASSESSMENT)
      && Lookup(ms, N_RECORD_ID) == Str(r.recordId)
      && Lookup(ms, N_CREATED_AT) == Str(r.createdAt)
      && Lookup(ms, N_CANONICALIZATION) == CANONICALIZATION_FIELDS
      && Lookup(ms, N_HASH_ALGORITHM) == Str(U("sha256"))
      && Lookup(ms, N_ADMISSION_RECEIPT_HASH) == r.admissionReceiptHash
      && Lookup(ms, N_CONSEQUENCE_RECEIPT_HASH) == r.consequenceReceiptHash
    ensures Marked(Heading(r), HEADING) && Different(HEADING)
  {
    HeadingMarked(r);
    InFront(Heading(r), HEADING, rest, 0, N_RECORD_VERSION, Str(U("1.0.0")));
    InFront(Heading(r), HEADING, rest, 1, N_RECORD_TYPE, Str(N_COHERENCE_ASSESSMENT));
    InFront(Heading(r), HEADING, rest, 2, N_RECORD_ID, Str(r.recordId));
    InFront(Heading(r), HEADING, rest, 3, N_CREATED_AT, Str(r.createdAt));
    InFront(Heading(r), HEADING, rest, 4, N_CANONICALIZATION, CANONICALIZATION_FIELDS);
    InFront(Heading(r), HEADING, rest, 5, N_HASH_ALGORITHM, Str(U("sha256")));
    InFront(Heading(r), HEADING, rest, 6, N_ADMISSION_RECEIPT_HASH, r.admissionReceiptHash);
    InFront(Heading(r), HEADING, rest, 7, N_CONSEQUENCE_RECEIPT_HASH, r.consequenceReceiptHash);
  }

  const JUDGEMENT: seq<int> := [2153, 3940, 3945, 2918, 4980, 4716]

  lemma JudgementMarked(r: Record)
    ensures Marked(Judgement(r), JUDGEMENT) && Different(JUDGEMENT)
  {
  }

  lemma JudgementRead(r: Record, rest: seq<Member<Json>>)
    ensures var ms := Judgement(r) + rest;
      && Lookup(ms, N_VERIFIER) == VerifierJson(r.verifierVersion, r.rulesetHash)
      && Lookup(ms, N_EVIDENCE_STATUS) == Str(EvidenceName(r.evidenceStatus))
      && Lookup(ms, N_VERIFIER_RESULT) == Str(VerdictName(r.verifierResult))
      && Lookup(ms, N_CONFORMANCE) == ConformanceJson(r.conformance)
      && Lookup(ms, N_ROUTING_DISPOSITION) == Str(RoutingName(r.routing))
      && Lookup(ms, N_APPLIED_RULE_CODES) == Codes(r.appliedRules)
    ensures Marked(Judgement(r), JUDGEMENT) && Different(JUDGEMENT)
  {
    JudgementMarked(r);
    InFront(Judgement(r), JUDGEMENT, rest, 0, N_VERIFIER, VerifierJson(r.verifierVersion, r.rulesetHash));
    InFront(Judgement(r), JUDGEMENT, rest, 1, N_EVIDENCE_STATUS, Str(EvidenceName(r.evidenceStatus)));
    InFront(Judgement(r), JUDGEMENT, rest, 2, N_VERIFIER_RESULT, Str(VerdictName(r.verifierResult)));
    InFront(Judgement(r), JUDGEMENT, rest, 3, N_CONFORMANCE, ConformanceJson(r.conformance));
    InFront(Judgement(r), JUDGEMENT, rest, 4, N_ROUTING_DISPOSITION, Str(RoutingName(r.routing)));
    InFront(Judgement(r), JUDGEMENT, rest, 5, N_APPLIED_RULE_CODES, Codes(r.appliedRules));
  }

  const OUTCOMES: seq<int> := [4713, 6003, 7027]

  lemma OutcomesMarked(c: ConformanceRecord)
    ensures Marked(Outcomes(c), OUTCOMES) && Different(OUTCOMES)
  {
  }

  lemma OutcomesRead(c: ConformanceRecord, rest: seq<Member<Json>>)
    ensures var ms := Outcomes(c) + rest;
      && Lookup(ms, N_ACTION_CONFORMANCE) == Str(ConformanceName(c.action))
      && Lookup(ms, N_CONSEQUENCE_CONFORMANCE) == Str(ConformanceName(c.consequence))
      && Lookup(ms, N_CONSEQUENCE_EVALUATION_MODE) == c.mode
    ensures Marked(Outcomes(c), OUTCOMES) && Different(OUTCOMES)
  {
    OutcomesMarked(c);
    InFront(Outcomes(c), OUTCOMES, rest, 0, N_ACTION_CONFORMANCE, Str(ConformanceName(c.action)));
    InFront(Outcomes(c), OUTCOMES, rest, 1, N_CONSEQUENCE_CONFORMANCE, Str(ConformanceName(c.consequence)));
    InFront(Outcomes(c), OUTCOMES, rest, 2, N_CONSEQUENCE_EVALUATION_MODE, c.mode);
  }

  const HASHES: seq<int> := [4725, 9320, 6501]

  lemma HashesMarked(c: ConformanceRecord)
    ensures Marked(Hashes(c), HASHES) && Different(HASHES)
  {
  }

  lemma HashesRead(c: ConformanceRecord, rest: seq<Member<Json>>)
    ensures var ms := Hashes(c) + rest;
      && Lookup(ms, N_ACTUAL_ACTION_HASH) == c.actualActionHash
      && Lookup(ms, N_AUTHORIZED_CONSEQUENCE_CONTRACT_HASH) == c.contractHash
      && Lookup(ms, N_OBSERVED_CONSEQUENCE_HASH) == c.observedConsequenceHash
    ensures Marked(Hashes(c), HASHES) && Different(HASHES)
  {
    HashesMarked(c);
    InFront(Hashes(c), HASHES, rest, 0, N_ACTUAL_ACTION_HASH, c.actualActionHash);
    InFront(Hashes(c), HASHES, rest, 1, N_AUTHORIZED_CONSEQUENCE_CONTRACT_HASH, c.contractHash);
    InFront(Hashes(c), HASHES, rest, 2, N_OBSERVED_CONSEQUENCE_HASH, c.observedConsequenceHash);
  }

  const EVALUATOR: seq<int> := [6259, 7539]

  lemma EvaluatorMarked(c: ConformanceRecord)
    ensures Marked(EvaluatorFields(c), EVALUATOR) && Different(EVALUATOR)
  {
  }

  lemma EvaluatorRead(c: ConformanceRecord, rest: seq<Member<Json>>)
    ensures var ms := EvaluatorFields(c) + rest;
      && Lookup(ms, N_CONSEQUENCE_EVALUATOR_ID) == c.evaluatorId
      && Lookup(ms, N_CONSEQUENCE_EVALUATOR_VERSION) == c.evaluatorVersion
    ensures Marked(EvaluatorFields(c), EVALUATOR) && Different(EVALUATOR)
  {
    EvaluatorMarked(c);
    InFront(EvaluatorFields(c), EVALUATOR, rest, 0, N_CONSEQUENCE_EVALUATOR_ID, c.evaluatorId);
    InFront(EvaluatorFields(c), EVALUATOR, rest, 1, N_CONSEQUENCE_EVALUATOR_VERSION, c.evaluatorVersion);
  }

  // ---------------------------------------------------------------- the names of the outcomes

  /** Every outcome has a name of its own. */
  lemma VerdictNames(v: Verdict)
    ensures VerdictName(v) == U("VALID") <==> v == VALID
    ensures VerdictName(v) == U("UNRESOLVED") <==> v == UNRESOLVED
    ensures VerdictName(v) == U("INVALID") <==> v == INVALID
  {
    assert |U("VALID")| == 5 && |U("UNRESOLVED")| == 10 && |U("INVALID")| == 7;
  }

  lemma EvidenceNames(s: EvidenceStatus)
    ensures EvidenceName(s) == U("COMPLETE") <==> s == COMPLETE
    ensures EvidenceName(s) == U("INCOMPLETE") <==> s == INCOMPLETE
    ensures EvidenceName(s) == U("CONTRADICTORY") <==> s == CONTRADICTORY
    ensures EvidenceName(s) == U("UNAVAILABLE") <==> s == UNAVAILABLE
  {
    assert |U("COMPLETE")| == 8 && |U("INCOMPLETE")| == 10 && |U("CONTRADICTORY")| == 13;
    assert |U("UNAVAILABLE")| == 11;
  }

  lemma MatchNames(c: Conformance)
    ensures ConformanceName(c) == U("MATCH") <==> c == MATCH
    ensures ConformanceName(c) == U("MISMATCH") <==> c == MISMATCH
    ensures ConformanceName(c) == U("NOT_EXECUTED") <==> c == NOT_EXECUTED
  {
    ConformanceLengths(c);
  }

  lemma ConformanceLengths(c: Conformance)
    ensures |ConformanceName(c)| ==
      match c
      case MATCH => 5
      case MISMATCH => 8
      case NOT_EXECUTED => 12
      case NO_CONSEQUENCE => 14
      case NOT_EVALUATED => 13
      case INDETERMINATE => 13
  {
  }

  lemma OtherNames(c: Conformance)
    ensures ConformanceName(c) == U("NO_CONSEQUENCE") <==> c == NO_CONSEQUENCE
    ensures ConformanceName(c) == U("NOT_EVALUATED") <==> c == NOT_EVALUATED
    ensures ConformanceName(c) == U("INDETERMINATE") <==> c == INDETERMINATE
  {
    ConformanceLengths(c);
    assert U("NOT_EVALUATED")[0] == 'N' as int && U("INDETERMINATE")[0] == 'I' as int;
  }

  lemma RoutingLengths(r: Routing)
    ensures |RoutingName(r)| ==
      match r
      case NONE_INDICATED => 14
      case REVIEW_REQUIRED => 15
      case REPAIR_CANDIDATE => 16
      case HUMAN_DETERMINATION_REQUIRED => 28
      case RECOVERY_REQUIRED => 17
      case SECURITY_REVIEW_REQUIRED => 24
  {
  }

  lemma RoutineNames(r: Routing)
    ensures RoutingName(r) == U("NONE_INDICATED") <==> r == NONE_INDICATED
    ensures RoutingName(r) == U("REVIEW_REQUIRED") <==> r == REVIEW_REQUIRED
    ensures RoutingName(r) == U("REPAIR_CANDIDATE") <==> r == REPAIR_CANDIDATE
  {
    RoutingLengths(r);
  }

  lemma HumanNames(r: Routing)
    ensures RoutingName(r) == U("HUMAN_DETERMINATION_REQUIRED") <==> r == HUMAN_DETERMINATION_REQUIRED
  {
    RoutingLengths(r);
  }

  lemma EscalatedNames(r: Routing)
    ensures RoutingName(r) == U("RECOVERY_REQUIRED") <==> r == RECOVERY_REQUIRED
    ensures RoutingName(r) == U("SECURITY_REVIEW_REQUIRED") <==> r == SECURITY_REVIEW_REQUIRED
  {
    RoutingLengths(r);
  }

  // ---------------------------------------------------------------- the whole record

  predicate HeadingSaid(j: Json, r: Record) {
    && Get(j, N_RECORD_VERSION) == Str(U("1.0.0"))
    && Get(j, N_RECORD_TYPE) == Str(N_COHERENCE_ASSESSMENT)
    && Get(j, N_RECORD_ID) == Str(r.recordId)
    && Get(j, N_CREATED_AT) == Str(r.createdAt)
    && Get(j, N_HASH_ALGORITHM) == Str(U("sha256"))
    && Get(j, N_ADMISSION_RECEIPT_HASH) == r.admissionReceiptHash
    && Get(j, N_CONSEQUENCE_RECEIPT_HASH) == r.consequenceReceiptHash
  }

  predicate JudgementSaid(j: Json, r: Record) {
    && Get(j, N_EVIDENCE_STATUS) == Str(EvidenceName(r.evidenceStatus))
    && Get(j, N_VERIFIER_RESULT) == Str(VerdictName(r.verifierResult))
    && Get(j, N_ROUTING_DISPOSITION) == Str(RoutingName(r.routing))
    && Get(j, N_APPLIED_RULE_CODES) == Codes(r.appliedRules)
  }

  predicate ReasonsSaid(j: Json, r: Record) {
    && Get(j, N_INVALIDITY_REASONS) == OptionalCodes(r.invalidityReasons)
    && Get(j, N_UNRESOLVED_REASONS) == OptionalCodes(r.unresolvedReasons)
  }

  predicate PartsSaid(j: Json, r: Record) {
    && Get(j, N_CANONICALIZATION) == CANONICALIZATION_FIELDS
    && Get(j, N_VERIFIER) == VerifierJson(r.verifierVersion, r.rulesetHash)
    && Get(j, N_CONFORMANCE) == ConformanceJson(r.conformance)
    && Get(j, N_CHAIN) == ChainJson(r)
    && Get(j, N_EXECUTION_BINDING) == OptionalBinding(r.binding)
  }

  lemma JudgementMarks()
    ensures Mark(N_VERIFIER) == 2153
    ensures Mark(N_EVIDENCE_STATUS) == 3940
    ensures Mark(N_VERIFIER_RESULT) == 3945
    ensures Mark(N_CONFORMANCE) == 2918
    ensures Mark(N_ROUTING_DISPOSITION) == 4980
    ensures Mark(N_APPLIED_RULE_CODES) == 4716
  {
  }

  lemma JudgementBehind(r: Record, rest: seq<Member<Json>>)
    ensures var ms := Heading(r) + rest;
      && Lookup(ms, N_VERIFIER) == Lookup(rest, N_VERIFIER)
      && Lookup(ms, N_EVIDENCE_STATUS) == Lookup(rest, N_EVIDENCE_STATUS)
      && Lookup(ms, N_VERIFIER_RESULT) == Lookup(rest, N_VERIFIER_RESULT)
      && Lookup(ms, N_CONFORMANCE) == Lookup(rest, N_CONFORMANCE)
      && Lookup(ms, N_ROUTING_DISPOSITION) == Lookup(rest, N_ROUTING_DISPOSITION)
      && Lookup(ms, N_APPLIED_RULE_CODES) == Lookup(rest, N_APPLIED_RULE_CODES)
  {
    HeadingMarked(r);
    JudgementMarks();
    Behind(Heading(r), HEADING, rest, N_VERIFIER);
    Behind(Heading(r), HEADING, rest, N_EVIDENCE_STATUS);
    Behind(Heading(r), HEADING, rest, N_VERIFIER_RESULT);
    Behind(Heading(r), HEADING, rest, N_CONFORMANCE);
    Behind(Heading(r), HEADING, rest, N_ROUTING_DISPOSITION);
    Behind(Heading(r), HEADING, rest, N_APPLIED_RULE_CODES);
  }

  lemma LastBehind(r: Record, rest: seq<Member<Json>>, key: Text)
    requires Mark(key) !in HEADING && Mark(key) !in JUDGEMENT
    ensures Lookup(Heading(r) + (Judgement(r) + rest), key) == Lookup(rest, key)
  {
    HeadingMarked(r);
    JudgementMarked(r);
    Behind(Heading(r), HEADING, Judgement(r) + rest, key);
    Behind(Judgement(r), JUDGEMENT, rest, key);
  }

  lemma TrailerRead(r: Record)
    ensures var ms := [Member(CHAIN, ChainJson(r))] + Trailer(r);
      && Lookup(ms, N_CHAIN) == ChainJson(r)
      && Lookup(ms, N_EXECUTION_BINDING) == OptionalBinding(r.binding)
      && Lookup(ms, N_INVALIDITY_REASONS) == OptionalCodes(r.invalidityReasons)
      && Lookup(ms, N_UNRESOLVED_REASONS) == OptionalCodes(r.unresolvedReasons)
  {
    var binding, invalid := N_EXECUTION_BINDING, N_INVALIDITY_REASONS;
    var unresolved := N_UNRESOLVED_REASONS;
    assert Mark(CHAIN) == 1385 && Mark(binding) == 4451 && Mark(invalid) == 4705 && Mark(unresolved) == 4709;
    TrailerLookup(r, binding, invalid, unresolved, binding);
    TrailerLookup(r, binding, invalid, unresolved, invalid);
    TrailerLookup(r, binding, invalid, unresolved, unresolved);
    LookupCons(Member(CHAIN, ChainJson(r)), Trailer(r), CHAIN);
    LookupCons(Member(CHAIN, ChainJson(r)), Trailer(r), binding);
    LookupCons(Member(CHAIN, ChainJson(r)), Trailer(r), invalid);
    LookupCons(Member(CHAIN, ChainJson(r)), Trailer(r), unresolved);
  }

  lemma TrailerLookup(r: Record, binding: Text, invalid: Text, unresolved: Text, key: Text)
    requires binding == N_EXECUTION_BINDING && invalid == N_INVALIDITY_REASONS
    requires unresolved == N_UNRESOLVED_REASONS
    requires binding != invalid && binding != unresolved && invalid != unresolved
    requires key in {binding, invalid, unresolved}
    ensures Lookup(Trailer(r), key) ==
      if key == binding then OptionalBinding(r.binding)
      else if key == invalid then OptionalCodes(r.invalidityReasons) else OptionalCodes(r.unresolvedReasons)
  {
    var last := Optional(unresolved, OptionalCodes(r.unresolvedReasons));
    var middle := Optional(invalid, OptionalCodes(r.invalidityReasons)) + last;
    assert last + [] == last;
    OptionalThen(binding, OptionalBinding(r.binding), middle, key);
    OptionalThen(invalid, OptionalCodes(r.invalidityReasons), last, key);
    OptionalThen(unresolved, OptionalCodes(r.unresolvedReasons), [], key);
  }

  lemma FrontOfRecord(r: Record)
    ensures HeadingSaid(ToJson(r), r) && Get(ToJson(r), N_CANONICALIZATION) == CANONICALIZATION_FIELDS
  {
    HeadingRead(r, Judgement(r) + ([Member(CHAIN, ChainJson(r))] + Trailer(r)));
  }

  lemma MiddleOfRecord(r: Record)
    ensures JudgementSaid(ToJson(r), r)
    ensures Get(ToJson(r), N_VERIFIER) == VerifierJson(r.verifierVersion, r.rulesetHash)
    ensures Get(ToJson(r), N_CONFORMANCE) == ConformanceJson(r.conformance)
  {
    var last := [Member(CHAIN, ChainJson(r))] + Trailer(r);
    JudgementBehind(r, Judgement(r) + last);
    JudgementRead(r, last);
  }

  lemma EndOfRecord(r: Record)
    ensures ReasonsSaid(ToJson(r), r) && Get(ToJson(r), N_CHAIN) == ChainJson(r)
    ensures Get(ToJson(r), N_EXECUTION_BINDING) == OptionalBinding(r.binding)
  {
    var last := [Member(CHAIN, ChainJson(r))] + Trailer(r);
    LastMarks();
    LastBehind(r, last, N_CHAIN);
    LastBehind(r, last, N_EXECUTION_BINDING);
    LastBehind(r, last, N_INVALIDITY_REASONS);
    LastBehind(r, last, N_UNRESOLVED_REASONS);
    TrailerRead(r);
  }

  /** The JSON form says under each name what the record holds. */
  lemma JsonOfRecord(r: Record)
    ensures HeadingSaid(ToJson(r), r) && JudgementSaid(ToJson(r), r) && ReasonsSaid(ToJson(r), r)
    ensures PartsSaid(ToJson(r), r)
  {
    FrontOfRecord(r);
    MiddleOfRecord(r);
    EndOfRecord(r);
  }

  lemma LastMarks()
    ensures Mark(N_CHAIN) == 1385 && Mark(N_EXECUTION_BINDING) == 4451
    ensures Mark(N_INVALIDITY_REASONS) == 4705 && Mark(N_UNRESOLVED_REASONS) == 4709
  {
  }

  // ---------------------------------------------------------------- its parts

  predicate VerifierSaid(j: Json, version: Text, rulesetHash: Text) {
    && Get(j, N_VERIFIER_ID) == Str(SEMANTIC_VERIFIER)
    && Get(j, N_VERIFIER_VERSION) == Str(version)
    && Get(j, N_RULESET_HASH) == Str(rulesetHash)
    && Get(j, N_EVALUATION_PROFILE) == Str(ATTESTATION_SEMANTICS)
    && Get(j, N_EVALUATION_PROFILE_VERSION) == Str(PROFILE_1_1_0)
  }

  const VERIFIER: seq<int> := [2921, 4201, 3173, 4716, 6764]

  lemma VerifierMarked(version: Text, rulesetHash: Text)
    ensures Marked(VerifierJson(version, rulesetHash).members, VERIFIER) && Different(VERIFIER)
  {
  }

  lemma VerifierRead(version: Text, rulesetHash: Text)
    ensures VerifierSaid(VerifierJson(version, rulesetHash), version, rulesetHash)
  {
    var ms := VerifierJson(version, rulesetHash).members;
    VerifierMarked(version, rulesetHash);
    assert ms + [] == ms;
    InFront(ms, VERIFIER, [], 0, N_VERIFIER_ID, Str(SEMANTIC_VERIFIER));
    InFront(ms, VERIFIER, [], 1, N_VERIFIER_VERSION, Str(version));
    InFront(ms, VERIFIER, [], 2, N_RULESET_HASH, Str(rulesetHash));
    InFront(ms, VERIFIER, [], 3, N_EVALUATION_PROFILE, Str(ATTESTATION_SEMANTICS));
    InFront(ms, VERIFIER, [], 4, N_EVALUATION_PROFILE_VERSION, Str(PROFILE_1_1_0));
  }

  predicate ChainSaid(j: Json, r: Record) {
    && Get(j, N_CHAIN_POSITION) == Num(r.chainPosition)
    && Get(j, N_PREVIOUS_RECORD_HASH) == r.previousRecordHash
    && Get(j, N_RECORD_HASH) == Str(r.recordHash)
  }

  lemma ChainRead(r: Record)
    ensures ChainSaid(ChainJson(r), r)
  {
    var ms, marks := ChainJson(r).members, [3689, 5238, 2927];
    assert Marked(ms, marks) && Different(marks);
    assert ms + [] == ms;
    InFront(ms, marks, [], 0, N_CHAIN_POSITION, Num(r.chainPosition));
    InFront(ms, marks, [], 1, N_PREVIOUS_RECORD_HASH, r.previousRecordHash);
    InFront(ms, marks, [], 2, N_RECORD_HASH, Str(r.recordHash));
  }

  predicate ConformanceSaid(j: Json, c: ConformanceRecord) {
    && Get(j, N_ACTION_CONFORMANCE) == Str(ConformanceName(c.action))
    && Get(j, N_CONSEQUENCE_CONFORMANCE) == Str(ConformanceName(c.consequence))
    && Get(j, N_CONSEQUENCE_EVALUATION_MODE) == c.mode
    && Get(j, N_AUTHORIZED_ACTION_HASH) == c.authorizedActionHash
    && Get(j, N_ACTUAL_ACTION_HASH) == c.actualActionHash
    && Get(j, N_AUTHORIZED_CONSEQUENCE_CONTRACT_HASH) == c.contractHash
    && Get(j, N_OBSERVED_CONSEQUENCE_HASH) == c.observedConsequenceHash
    && Get(j, N_CONSEQUENCE_EVALUATOR_ID) == c.evaluatorId
    && Get(j, N_CONSEQUENCE_EVALUATOR_VERSION) == c.evaluatorVersion
  }

  lemma PastOutcomes(c: ConformanceRecord, rest: seq<Member<Json>>, key: Text)
    requires Mark(key) !in OUTCOMES && key != AUTHORIZED_ACTION_HASH
    ensures Lookup(Outcomes(c) + (Optional(AUTHORIZED_ACTION_HASH, c.authorizedActionHash) + rest), key)
      == Lookup(rest, key)
  {
    var optional := Optional(AUTHORIZED_ACTION_HASH, c.authorizedActionHash) + rest;
    OutcomesRead(c, optional);
    Behind(Outcomes(c), OUTCOMES, optional, key);
    OptionalThen(AUTHORIZED_ACTION_HASH, c.authorizedActionHash, rest, key);
  }

  lemma AuthorizedRead(c: ConformanceRecord, rest: seq<Member<Json>>)
    requires Lookup(rest, AUTHORIZED_ACTION_HASH) == Undef
    ensures Lookup(Outcomes(c) + (Optional(AUTHORIZED_ACTION_HASH, c.authorizedActionHash) + rest),
                   AUTHORIZED_ACTION_HASH) == c.authorizedActionHash
  {
    var optional := Optional(AUTHORIZED_ACTION_HASH, c.authorizedActionHash) + rest;
    assert Mark(AUTHORIZED_ACTION_HASH) == 5736;
    OutcomesRead(c, optional);
    Behind(Outcomes(c), OUTCOMES, optional, AUTHORIZED_ACTION_HASH);
    OptionalThen(AUTHORIZED_ACTION_HASH, c.authorizedActionHash, rest, AUTHORIZED_ACTION_HASH);
  }

  lemma HashMarks()
    ensures Mark(N_ACTUAL_ACTION_HASH) == 4725 && Mark(N_AUTHORIZED_CONSEQUENCE_CONTRACT_HASH) == 9320
    ensures Mark(N_OBSERVED_CONSEQUENCE_HASH) == 6501 && Mark(N_CONSEQUENCE_EVALUATOR_ID) == 6259
    ensures Mark(N_CONSEQUENCE_EVALUATOR_VERSION) == 7539 && Mark(AUTHORIZED_ACTION_HASH) == 5736
  {
  }

  lemma TailRead(c: ConformanceRecord)
    ensures var ms := Hashes(c) + EvaluatorFields(c);
      && Lookup(ms, N_ACTUAL_ACTION_HASH) == c.actualActionHash
      && Lookup(ms, N_AUTHORIZED_CONSEQUENCE_CONTRACT_HASH) == c.contractHash
      && Lookup(ms, N_OBSERVED_CONSEQUENCE_HASH) == c.observedConsequenceHash
      && Lookup(ms, N_CONSEQUENCE_EVALUATOR_ID) == c.evaluatorId
      && Lookup(ms, N_CONSEQUENCE_EVALUATOR_VERSION) == c.evaluatorVersion
      && Lookup(ms, AUTHORIZED_ACTION_HASH) == Undef
  {
    var last := EvaluatorFields(c);
    assert last + [] == last;
    HashMarks();
    HashesRead(c, last);
    EvaluatorRead(c, []);
    Behind(Hashes(c), HASHES, last, N_CONSEQUENCE_EVALUATOR_ID);
    Behind(Hashes(c), HASHES, last, N_CONSEQUENCE_EVALUATOR_VERSION);
    Behind(Hashes(c), HASHES, last, AUTHORIZED_ACTION_HASH);
    Behind(last, EVALUATOR, [], AUTHORIZED_ACTION_HASH);
  }

  lemma ConformanceRead(c: ConformanceRecord)
    ensures ConformanceSaid(ConformanceJson(c), c)
  {
    var tail := Hashes(c) + EvaluatorFields(c);
    HashMarks();
    TailRead(c);
    OutcomesRead(c, Optional(AUTHORIZED_ACTION_HASH, c.authorizedActionHash) + tail);
    AuthorizedRead(c, tail);
    PastOutcomes(c, tail, N_ACTUAL_ACTION_HASH);
    PastOutcomes(c, tail, N_AUTHORIZED_CONSEQUENCE_CONTRACT_HASH);
    PastOutcomes(c, tail, N_OBSERVED_CONSEQUENCE_HASH);
    PastOutcomes(c, tail, N_CONSEQUENCE_EVALUATOR_ID);
    PastOutcomes(c, tail, N_CONSEQUENCE_EVALUATOR_VERSION);
  }

  predicate BindingSaid(j: Json, b: Binding) {
    && Get(j, N_EXECUTION_ID) == Str(b.executionId)
    && Get(j, N_AUTHORIZATION_NONCE) == b.nonce
    && Get(j, N_AUTHORIZATION_NONCE_STATE) == b.nonceState
    && Get(j, N_EXECUTION_ATTEMPT) == b.attempt
    && Get(j, N_MANDATE_ID) == b.mandateId
    && Get(j, N_OCCURRENCE_INDEX) == b.occurrence
  }

  function BindingHead(b: Binding): seq<Member<Json>> {
    [Member(N_EXECUTION_ID, Str(b.executionId)), Member(N_AUTHORIZATION_NONCE, b.nonce),
     Member(N_AUTHORIZATION_NONCE_STATE, b.nonceState)]
  }

  function BindingTail(b: Binding): seq<Member<Json>> {
    Optional(N_EXECUTION_ATTEMPT, b.attempt)
    + (Optional(N_MANDATE_ID, b.mandateId) + Optional(N_OCCURRENCE_INDEX, b.occurrence))
  }

  lemma BindingTailRead(b: Binding, attempt: Text, mandate: Text, occurrence: Text, key: Text)
    requires attempt == N_EXECUTION_ATTEMPT && mandate == N_MANDATE_ID && occurrence == N_OCCURRENCE_INDEX
    requires attempt != mandate && attempt != occurrence && mandate != occurrence
    requires key in {attempt, mandate, occurrence}
    ensures Lookup(BindingTail(b), key) ==
      if key == attempt then b.attempt else if key == mandate then b.mandateId else b.occurrence
  {
    var last := Optional(occurrence, b.occurrence);
    assert last + [] == last;
    OptionalThen(attempt, b.attempt, Optional(mandate, b.mandateId) + last, key);
    OptionalThen(mandate, b.mandateId, last, key);
    OptionalThen(occurrence, b.occurrence, [], key);
  }

  lemma BindingRead(b: Binding)
    ensures BindingSaid(BindingJson(b), b)
  {
    var head, tail, marks := BindingHead(b), BindingTail(b), [3171, 4968, 6504];
    var attempt, mandate, occurrence := N_EXECUTION_ATTEMPT, N_MANDATE_ID, N_OCCURRENCE_INDEX;
    assert Mark(attempt) == 4451 && Mark(mandate) == 2660 && Mark(occurrence) == 4213;
    assert Marked(head, marks) && Different(marks);
    assert BindingJson(b).members == head + tail;
    InFront(head, marks, tail, 0, N_EXECUTION_ID, Str(b.executionId));
    InFront(head, marks, tail, 1, N_AUTHORIZATION_NONCE, b.nonce);
    InFront(head, marks, tail, 2, N_AUTHORIZATION_NONCE_STATE, b.nonceState);
    Behind(head, marks, tail, attempt);
    Behind(head, marks, tail, mandate);
    Behind(head, marks, tail, occurrence);
    BindingTailRead(b, attempt, mandate, occurrence, attempt);
    BindingTailRead(b, attempt, mandate, occurrence, mandate);
    BindingTailRead(b, attempt, mandate, occurrence, occurrence);
  }
}
