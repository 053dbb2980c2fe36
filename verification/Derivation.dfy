/** Deriving a coherence assessment, or refusing to. */
module Derivation {
  import opened Unicode
  import opened Values
  import opened JsonText
  import opened Platform
  import opened Seal
  import opened Coherence
  import opened ReasonLists
  import opened Records

  const RECORD_ID: Text := U("record_id")
  const VERIFIER_VERSION: Text := U("verifier_version")
  const CHAIN_POSITION: Text := U("chain_position")
  const EXECUTION_ID: Text := U("execution_id")
  const EXECUTION_ATTEMPT: Text := U("execution_attempt")
  const MANDATE_ID: Text := U("mandate_id")
  const OCCURRENCE_INDEX: Text := U("occurrence_index")

  const CAR_EVIDENCE: Code := U("CAR-EVIDENCE-001")
  const CAR_CHAIN: Code := U("CAR-CHAIN-001")
  const CAR_NONCE: Code := U("CAR-NONCE-001")
  const CAR_REPLAY: Code := U("CAR-REPLAY-001")
  const CAR_TIME: Code := U("CAR-TIME-001")
  const CAR_EXECUTOR: Code := U("CAR-EXECUTOR-001")
  const CAR_PROFILE: Code := U("CAR-PROFILE-001")
  const CAR_ACTION: Code := U("CAR-ACTION-001")
  const CAR_OUTCOME: Code := U("CAR-OUTCOME-001")

  const ENDING: Text := U("UNAVAILABLE")

  datatype Disposition = DERIVED | REFUSED_INVALID | REFUSED_UNRESOLVED

  datatype Assessment = Assessment(disposition: Disposition, record: Record)

  // ---------------------------------------------------------------- metadata

  predicate DigitRun(t: Text) {
    t != [] && forall k | 0 <= k < |t| :: Digit(t[k])
  }

  /** Three runs of digits, separated by dots at `i` and `j`. */
  predicate Dotted(t: Text, i: nat, j: nat) {
    && i < j < |t|
    && t[i] == 0x2E && t[j] == 0x2E
    && DigitRun(t[..i]) && DigitRun(t[i + 1..j]) && DigitRun(t[j + 1..])
  }

  predicate IsSemver(t: Text) {
    exists i, j | 0 <= i < j < |t| :: Dotted(t, i, j)
  }

  lemma DottedParts(a: Text, b: Text, c: Text)
    requires DigitRun(a) && DigitRun(b) && DigitRun(c)
    ensures IsSemver(a + [0x2E] + b + [0x2E] + c)
  {
    var t, i, j := a + [0x2E] + b + [0x2E] + c, |a|, |a| + 1 + |b|;
    assert t[..i] == a && t[i + 1..j] == b && t[j + 1..] == c;
    assert Dotted(t, i, j);
  }

  /** A version is three numbers with dots between them. */
  lemma SemverExactly(t: Text)
    ensures IsSemver(t) <==>
      exists a, b, c | DigitRun(a) && DigitRun(b) && DigitRun(c) :: t == a + [0x2E] + b + [0x2E] + c
  {
    if IsSemver(t) {
      var i, j :| 0 <= i < j < |t| && Dotted(t, i, j);
      assert t == t[..i] + [0x2E] + t[i + 1..j] + [0x2E] + t[j + 1..];
    }
    if a, b, c :| DigitRun(a) && DigitRun(b) && DigitRun(c) && t == a + [0x2E] + b + [0x2E] + c {
      DottedParts(a, b, c);
    }
  }

  lemma DigitsAscii(t: Text, part: Text, lo: nat)
    requires DigitRun(part) && lo + |part| <= |t| && t[lo..lo + |part|] == part
    ensures forall k | lo <= k < lo + |part| :: t[k] < 0x80
  {
    forall k | lo <= k < lo + |part| ensures t[k] < 0x80 {
      assert t[lo..lo + |part|][k - lo] == part[k - lo];
    }
  }

  lemma DottedAscii(t: Text, i: nat, j: nat)
    requires Dotted(t, i, j)
    ensures Ascii(t)
  {
    DigitsAscii(t, t[..i], 0);
    DigitsAscii(t, t[i + 1..j], i + 1);
    DigitsAscii(t, t[j + 1..], j + 1);
  }

  lemma SemverAscii(t: Text)
    requires IsSemver(t)
    ensures Ascii(t)
  {
    var i, j :| 0 <= i < j < |t| && Dotted(t, i, j);
    DottedAscii(t, i, j);
  }

  predicate HasMetadata(m: Json) {
    Get(m, RECORD_ID).Str? && Get(m, CREATED_AT).Str? && Get(m, VERIFIER_VERSION).Str?
  }

  function MetadataError(p: Platform, m: Json): (error: Option<ErrorCode>)
    ensures error.None? ==> HasMetadata(m)
  {
    var id, at, version := Get(m, RECORD_ID), Get(m, CREATED_AT), Get(m, VERIFIER_VERSION);
    if !m.Obj? then Some(METADATA_REQUIRED)
    else if !id.Str? || id.s == [] then Some(RECORD_ID_REQUIRED)
    else if !at.Str? || p.dateParse(at).None? then Some(CREATED_AT_REQUIRED)
    else if !version.Str? || !IsSemver(version.s) then Some(VERIFIER_VERSION_REQUIRED)
    else None
  }

  // ---------------------------------------------------------------- routing and evidence status

  function RoutingDisposition(v: Verdict, action: Conformance, consequence: Conformance, executionStatus: Json,
                              nonceState: Json, hasResidue: bool): Routing
  {
    if v == INVALID then SECURITY_REVIEW_REQUIRED
    else if v == UNRESOLVED then
      if nonceState == IN_RECOVERY then RECOVERY_REQUIRED else REVIEW_REQUIRED
    else if action == MISMATCH then SECURITY_REVIEW_REQUIRED
    else if consequence == MISMATCH then HUMAN_DETERMINATION_REQUIRED
    else if executionStatus == Str(U("FAILED")) || executionStatus == Str(U("FAILED_DURING_EXECUTION")) || hasResidue then
      REPAIR_CANDIDATE
    else if Includes(NON_EXECUTION_STATUSES, executionStatus) || executionStatus == Str(U("HALTED"))
            || action == NOT_EXECUTED then
      REVIEW_REQUIRED
    else NONE_INDICATED
  }

  predicate EndsWith(t: Text, ending: Text) {
    |ending| <= |t| && t[|t| - |ending|..] == ending
  }

  function EvidenceStatusOf(f: Findings): EvidenceStatus {
    if f.invalid != {} then CONTRADICTORY
    else if exists c | c in f.unresolved :: EndsWith(c, ENDING) then UNAVAILABLE
    else if f.unresolved != {} then INCOMPLETE
    else COMPLETE
  }

  /** The rules that were applied: the last two only where nothing is invalid. */
  function AppliedRules(clean: bool): set<Code> {
    var base :=
      {} + {CAR_EVIDENCE} + {CAR_CHAIN} + {CAR_NONCE} + {CAR_REPLAY} + {CAR_TIME} + {CAR_EXECUTOR} + {CAR_PROFILE};
    if clean then base + {CAR_ACTION} + {CAR_OUTCOME} else base
  }

  // ---------------------------------------------------------------- the record

  function Repeat(u: Unit, n: nat): (t: Text)
    ensures |t| == n && forall k | 0 <= k < n :: t[k] == u
  {
    seq(n, k requires 0 <= k < n => u)
  }

  const ZERO_HASH: Text := Repeat(0x30, 64)

  lemma ZeroIsHash()
    ensures IsHash(Str(ZERO_HASH))
  {
  }

  function HashOrZero(v: Json): (r: Json)
    ensures IsHash(r)
  {
    ZeroIsHash();
    if IsHash(v) then v else Str(ZERO_HASH)
  }

  function HashOrNothing(v: Json): (r: Json)
    ensures HashOrNull(r)
  {
    if IsHash(v) then v else Null
  }

  function SafeOrAbsent(v: Json): Json {
    if v.Num? && SafeInteger(v.n) then v else Undef
  }

  function TextOrAbsent(v: Json): Json {
    if v.Str? then v else Undef
  }

  function ChainPositionOf(consequence: Json): int {
    var position := SafeOrAbsent(Path(consequence, CHAIN, CHAIN_POSITION));
    if position.Num? then position.n + 1 else 2
  }

  function BindingOf(consequence: Json, e: Evidence, nonceState: Json): Option<Binding> {
    var id := Get(consequence, EXECUTION_ID);
    if id.Str? && Truthy(e.consequenceNonce) then
      Some(Binding(id.s, e.consequenceNonce, Or(nonceState, IN_RECOVERY),
                   SafeOrAbsent(Get(consequence, EXECUTION_ATTEMPT)),
                   TextOrAbsent(Get(consequence, MANDATE_ID)),
                   SafeOrAbsent(Get(consequence, OCCURRENCE_INDEX))))
    else None
  }

  function ConformanceOf(e: Evidence, action: Conformance, c: Consequence): ConformanceRecord {
    ConformanceRecord(
      action, c.status, c.mode,
      if IsHash(e.authorizedActionHash) then e.authorizedActionHash else Undef,
      HashOrNothing(e.actualActionHash), HashOrNothing(c.contractHash), HashOrNothing(e.observedConsequenceHash),
      Or(c.evaluatorId, Null), Or(c.evaluatorVersion, Null))
  }

  /** What the derivation settles before it writes the record. */
  datatype Settled = Settled(
    verdict: Verdict,
    evidenceStatus: EvidenceStatus,
    action: Conformance,
    consequence: Consequence,
    routing: Routing,
    appliedRules: seq<Code>,
    invalid: seq<Code>,
    unresolved: seq<Code>
  )

  /** The record, still with a zero hash. */
  function Compose(rulesetHash: Text, i: Inputs, e: Evidence, s: Settled): Record
    requires HasMetadata(i.metadata)
  {
    Record(
      recordId := Get(i.metadata, RECORD_ID).s,
      createdAt := Get(i.metadata, CREATED_AT).s,
      verifierVersion := Get(i.metadata, VERIFIER_VERSION).s,
      rulesetHash := rulesetHash,
      admissionReceiptHash := HashOrZero(e.admissionHash),
      consequenceReceiptHash := HashOrZero(e.consequenceHash),
      evidenceStatus := s.evidenceStatus,
      verifierResult := s.verdict,
      conformance := ConformanceOf(e, s.action, s.consequence),
      routing := s.routing,
      appliedRules := s.appliedRules,
      chainPosition := ChainPositionOf(i.consequence),
      previousRecordHash := HashOrZero(e.consequenceHash),
      recordHash := ZERO_HASH,
      binding := BindingOf(i.consequence, e, i.nonceState),
      invalidityReasons := if s.verdict == INVALID then Some(s.invalid) else None,
      unresolvedReasons := if s.verdict == UNRESOLVED then Some(s.unresolved) else None)
  }

  function DispositionOf(v: Verdict): Disposition {
    match v
    case VALID => DERIVED
    case INVALID => REFUSED_INVALID
    case UNRESOLVED => REFUSED_UNRESOLVED
  }

  function Sealing(r: Record, hash: Result<Text>): Result<Assessment> {
    match hash
    case Ok(h) => Ok(Assessment(DispositionOf(r.verifierResult), r.(recordHash := h)))
    case Err(code) => Err(code)
  }

  // ---------------------------------------------------------------- what is to be derived

  function ActionOf(e: Evidence, clean: bool): Conformance {
    if clean then ActionConformance(e) else INDETERMINATE
  }

  function ConsequenceOf(i: Inputs, e: Evidence, clean: bool): Consequence {
    if clean then ConsequenceConformance(e, i.evaluator) else Plain(INDETERMINATE, ModeOf(e), [])
  }

  /** The outcome of an assessment in terms of its rules: the verdict is the meet of all ten verdicts, and the
      reasons are those of the rules, in order. */
  ghost function Outcome(p: Platform, i: Inputs, e: Evidence): Settled {
    var f := Gathered(p, i, e);
    var clean := f.invalid == {};
    var verdict := MeetAll(Verdicts(AllRules(p, i, e)));
    var action, consequence := ActionOf(e, clean), ConsequenceOf(i, e, clean);
    Settled(
      verdict, EvidenceStatusOf(f), action, consequence,
      RoutingDisposition(verdict, action, consequence.status, e.executionStatus, i.nonceState, e.hasResidue),
      Listing(AppliedRules(clean)), Listing(f.invalid), Listing(f.unresolved))
  }

  ghost function Drafted(p: Platform, rulesetHash: Text, i: Inputs, e: Evidence): Record
    requires HasMetadata(i.metadata)
  {
    Compose(rulesetHash, i, e, Outcome(p, i, e))
  }

  /** What is to be derived from the inputs, given the evidence `e` read from the two receipts. */
  ghost function Derived(p: Platform, rulesetHash: Text, i: Inputs, e: Evidence): Result<Assessment> {
    DerivedFrom(p, rulesetHash, i, e, Outcome(p, i, e))
  }

  /** The assessment whose outcome is `s`. */
  function DerivedFrom(p: Platform, rulesetHash: Text, i: Inputs, e: Evidence, s: Settled): Result<Assessment> {
    match MetadataError(p, i.metadata)
    case Some(code) => Err(code)
    case None =>
      var r := Compose(rulesetHash, i, e, s);
      Sealing(r, RecordHash(p, ToJson(r)))
  }

  // ---------------------------------------------------------------- the derivation

  method BaseRuleCodes() returns (applied: seq<Code>)
    ensures NoDuplicates(applied) && Elements(applied) == AppliedRules(false)
  {
    applied := PushUnique([], CAR_EVIDENCE);
    applied := PushUnique(applied, CAR_CHAIN);
    applied := PushUnique(applied, CAR_NONCE);
    applied := PushUnique(applied, CAR_REPLAY);
    applied := PushUnique(applied, CAR_TIME);
    applied := PushUnique(applied, CAR_EXECUTOR);
    applied := PushUnique(applied, CAR_PROFILE);
  }

  lemma SortedListing(ts: seq<Code>, s: set<Code>)
    requires NoDuplicates(ts) && Elements(ts) == s
    ensures SortCodes(ts) == Listing(s)
  {
    SortCodesSpec(ts);
    ListingUnique(SortCodes(ts), Listing(s));
  }

  lemma EmptyList(ts: seq<Code>)
    ensures ts == [] <==> Elements(ts) == {}
  {
    if ts != [] {
      assert ts[0] in Elements(ts);
    }
  }

  /** The action and outcome rules, applied to the lists only where nothing is invalid. */
  method GatherLast(p: Platform, i: Inputs, e: Evidence, base: Reasons)
    returns (r: Reasons, action: Conformance, consequence: Consequence)
    requires Holds(base, BothAll(BaseRules(p, i, e)))
    ensures Holds(r, Gathered(p, i, e))
    ensures var clean := Gathered(p, i, e).invalid == {};
      && action == ActionOf(e, clean) && consequence == ConsequenceOf(i, e, clean) && (clean <==> base.invalid == [])
  {
    ghost var f := BothAll(BaseRules(p, i, e));
    EmptyList(base.invalid);
    action, consequence := INDETERMINATE, Plain(INDETERMINATE, ModeOf(e), []);
    r := base;
    if base.invalid == [] {
      action := ActionConformance(e);
      r := UnresolveIf(r, action == INDETERMINATE, ACTION_CONFORMANCE_INDETERMINATE, f);
      consequence := ConsequenceConformance(e, i.evaluator);
      r := UnresolveIf(r, consequence.status == INDETERMINATE, OutcomeReason(consequence), Both(f, ActionRule(e)));
      BothAssociates(f, ActionRule(e), OutcomeRule(i.evaluator, e));
    }
  }

  /** Verdict and evidence status as read off the two lists. */
  method Judge(r: Reasons, ghost f: Findings) returns (verdict: Verdict, status: EvidenceStatus)
    requires Holds(r, f)
    ensures verdict == VerdictOf(f) && status == EvidenceStatusOf(f)
  {
    EmptyList(r.invalid);
    EmptyList(r.unresolved);
    verdict := if |r.invalid| > 0 then INVALID else if |r.unresolved| > 0 then UNRESOLVED else VALID;
    var unavailable := exists k | 0 <= k < |r.unresolved| :: EndsWith(r.unresolved[k], ENDING);
    if unavailable {
      ghost var k :| 0 <= k < |r.unresolved| && EndsWith(r.unresolved[k], ENDING);
      assert r.unresolved[k] in f.unresolved;
    } else {
      assert forall c | c in f.unresolved :: c in r.unresolved;
    }
    status := if |r.invalid| > 0 then CONTRADICTORY
              else if unavailable then UNAVAILABLE
              else if |r.unresolved| > 0 then INCOMPLETE
              else COMPLETE;
  }

  method Settle(p: Platform, i: Inputs, e: Evidence) returns (s: Settled)
    ensures s == Outcome(p, i, e)
  {
    var applied := BaseRuleCodes();
    var base := GatherBase(p, i, e);
    var reasons, action, consequence := GatherLast(p, i, e, base);
    if base.invalid == [] {
      applied := PushUnique(applied, CAR_ACTION);
      applied := PushUnique(applied, CAR_OUTCOME);
    }
    var verdict, status := Judge(reasons, Gathered(p, i, e));
    VerdictIsMeet(p, i, e);
    SortedListing(applied, AppliedRules(base.invalid == []));
    SortedListing(reasons.invalid, Gathered(p, i, e).invalid);
    SortedListing(reasons.unresolved, Gathered(p, i, e).unresolved);
    var routing := RoutingDisposition(verdict, action, consequence.status, e.executionStatus, i.nonceState, e.hasResidue);
    return Settled(verdict, status, action, consequence, routing,
                   SortCodes(applied), SortCodes(reasons.invalid), SortCodes(reasons.unresolved));
  }

  method DeriveOrRefuse(p: Platform, rulesetHash: Text, i: Inputs) returns (r: Result<Assessment>)
    ensures r == Derived(p, rulesetHash, i, Extract(i.admission, i.consequence))
  {
    var error := MetadataError(p, i.metadata);
    if error.Some? {
      return Err(error.value);
    }
    var e := Extract(i.admission, i.consequence);
    var settled := Settle(p, i, e);
    var record := Compose(rulesetHash, i, e, settled);
    var hash := ComputeAssessmentRecordHash(p, ToJson(record));
    return Sealing(record, hash);
  }
}
