/** Coherence assessment records: their fields, their JSON form, and which of them can be sealed. */
module Records {
  import opened Unicode
  import opened Values
  import opened StrictCanonical
  import opened Seal
  import opened Coherence

  datatype EvidenceStatus = COMPLETE | INCOMPLETE | CONTRADICTORY | UNAVAILABLE

  datatype Routing =
    | NONE_INDICATED
    | REVIEW_REQUIRED
    | REPAIR_CANDIDATE
    | HUMAN_DETERMINATION_REQUIRED
    | RECOVERY_REQUIRED
    | SECURITY_REVIEW_REQUIRED

  datatype ConformanceRecord = ConformanceRecord(
    action: Conformance,
    consequence: Conformance,
    mode: Json,
    authorizedActionHash: Json,
    actualActionHash: Json,
    contractHash: Json,
    observedConsequenceHash: Json,
    evaluatorId: Json,
    evaluatorVersion: Json
  )

  datatype Binding = Binding(
    executionId: Text,
    nonce: Json,
    nonceState: Json,
    attempt: Json,
    mandateId: Json,
    occurrence: Json
  )

  /** A record; `Undef` and `None` stand for fields that are left out. */
  datatype Record = Record(
    recordId: Text,
    createdAt: Text,
    verifierVersion: Text,
    rulesetHash: Text,
    admissionReceiptHash: Json,
    consequenceReceiptHash: Json,
    evidenceStatus: EvidenceStatus,
    verifierResult: Verdict,
    conformance: ConformanceRecord,
    routing: Routing,
    appliedRules: seq<Code>,
    chainPosition: int,
    previousRecordHash: Json,
    recordHash: Text,
    binding: Option<Binding>,
    invalidityReasons: Option<seq<Code>>,
    unresolvedReasons: Option<seq<Code>>
  )

  // ---------------------------------------------------------------- names

  function VerdictName(v: Verdict): Text {
    match v
    case INVALID => U("INVALID")
    case UNRESOLVED => U("UNRESOLVED")
    case VALID => U("VALID")
  }

  function ConformanceName(c: Conformance): Text {
    match c
    case MATCH => U("MATCH")
    case MISMATCH => U("MISMATCH")
    case NOT_EXECUTED => U("NOT_EXECUTED")
    case NO_CONSEQUENCE => U("NO_CONSEQUENCE")
    case NOT_EVALUATED => U("NOT_EVALUATED")
    case INDETERMINATE => U("INDETERMINATE")
  }

  function EvidenceName(s: EvidenceStatus): Text {
    match s
    case COMPLETE => U("COMPLETE")
    case INCOMPLETE => U("INCOMPLETE")
    case CONTRADICTORY => U("CONTRADICTORY")
    case UNAVAILABLE => U("UNAVAILABLE")
  }

  function RoutingName(r: Routing): Text {
    match r
    case NONE_INDICATED => U("NONE_INDICATED")
    case REVIEW_REQUIRED => U("REVIEW_REQUIRED")
    case REPAIR_CANDIDATE => U("REPAIR_CANDIDATE")
    case HUMAN_DETERMINATION_REQUIRED => U("HUMAN_DETERMINATION_REQUIRED")
    case RECOVERY_REQUIRED => U("RECOVERY_REQUIRED")
    case SECURITY_REVIEW_REQUIRED => U("SECURITY_REVIEW_REQUIRED")
  }

  // ---------------------------------------------------------------- the JSON form

  function Optional(key: Text, value: Json): seq<Member<Json>> {
    if value.Undef? then [] else [Member(key, value)]
  }

  function Codes(ts: seq<Code>): Json {
    Arr(seq(|ts|, i requires 0 <= i < |ts| => Str(ts[i])))
  }

  function OptionalCodes(ts: Option<seq<Code>>): Json {
    if ts.Some? then Codes(ts.value) else Undef
  }

  const CANONICALIZATION_FIELDS: Json := Obj([
    Member(PROFILE, Str(U("RIO-CANON"))),
    Member(PROFILE_VERSION, Str(U("1.1.0"))),
    Member(U("hash_projection"), Str(U("MUS-CAR-ASSESS-HASH-1")))])

  function VerifierJson(version: Text, rulesetHash: Text): Json {
    Obj([
      Member(U("verifier_id"), Str(U("MUS_SEMANTIC_VERIFIER"))),
      Member(U("verifier_version"), Str(version)),
      Member(U("ruleset_hash"), Str(rulesetHash)),
      Member(U("evaluation_profile"), Str(U("MUS-CONSEQUENCE-ATTESTATION-SEMANTICS"))),
      Member(U("evaluation_profile_version"), Str(U("1.1.0")))])
  }

  function Outcomes(c: ConformanceRecord): seq<Member<Json>> {
    [Member(U("action_conformance"), Str(ConformanceName(c.action))),
     Member(U("consequence_conformance"), Str(ConformanceName(c.consequence))),
     Member(U("consequence_evaluation_mode"), c.mode)]
  }

  function Hashes(c: ConformanceRecord): seq<Member<Json>> {
    [Member(U("actual_action_hash"), c.actualActionHash),
     Member(U("authorized_consequence_contract_hash"), c.contractHash),
     Member(U("observed_consequence_hash"), c.observedConsequenceHash)]
  }

  function EvaluatorFields(c: ConformanceRecord): seq<Member<Json>> {
    [Member(U("consequence_evaluator_id"), c.evaluatorId),
     Member(U("consequence_evaluator_version"), c.evaluatorVersion)]
  }

  function ConformanceJson(c: ConformanceRecord): Json {
    Obj(Outcomes(c) + (Optional(AUTHORIZED_ACTION_HASH, c.authorizedActionHash) + (Hashes(c) + EvaluatorFields(c))))
  }

  function BindingJson(b: Binding): Json {
    Obj([Member(U("execution_id"), Str(b.executionId)),
         Member(AUTHORIZATION_NONCE, b.nonce),
         Member(U("authorization_nonce_state"), b.nonceState)]
      + (Optional(U("execution_attempt"), b.attempt)
      + (Optional(U("mandate_id"), b.mandateId) + Optional(U("occurrence_index"), b.occurrence))))
  }

  function OptionalBinding(b: Option<Binding>): Json {
    if b.Some? then BindingJson(b.value) else Undef
  }

  function Heading(r: Record): seq<Member<Json>> {
    [Member(U("record_version"), Str(U("1.0.0"))),
     Member(U("record_type"), Str(U("coherence_assessment"))),
     Member(U("record_id"), Str(r.recordId)),
     Member(CREATED_AT, Str(r.createdAt)),
     Member(CANONICALIZATION, CANONICALIZATION_FIELDS),
     Member(U("hash_algorithm"), Str(U("sha256"))),
     Member(ADMISSION_RECEIPT_HASH, r.admissionReceiptHash),
     Member(U("consequence_receipt_hash"), r.consequenceReceiptHash)]
  }

  function Judgement(r: Record): seq<Member<Json>> {
    [Member(U("verifier"), VerifierJson(r.verifierVersion, r.rulesetHash)),
     Member(U("evidence_status"), Str(EvidenceName(r.evidenceStatus))),
     Member(U("verifier_result"), Str(VerdictName(r.verifierResult))),
     Member(U("conformance"), ConformanceJson(r.conformance)),
     Member(U("routing_disposition"), Str(RoutingName(r.routing))),
     Member(U("applied_rule_codes"), Codes(r.appliedRules))]
  }

  function Linkage(r: Record): seq<Member<Json>> {
    [Member(U("chain_position"), Num(r.chainPosition)),
     Member(U("previous_record_hash"), r.previousRecordHash)]
  }

  function ChainJson(r: Record): Json {
    Obj(Linkage(r) + [Member(RECORD_HASH, Str(r.recordHash))])
  }

  function Trailer(r: Record): seq<Member<Json>> {
    Optional(U("execution_binding"), OptionalBinding(r.binding))
    + (Optional(U("invalidity_reasons"), OptionalCodes(r.invalidityReasons))
    + Optional(U("unresolved_reasons"), OptionalCodes(r.unresolvedReasons)))
  }

  function ToJson(r: Record): Json {
    Obj(Heading(r) + (Judgement(r) + ([Member(CHAIN, ChainJson(r))] + Trailer(r))))
  }

  // ---------------------------------------------------------------- sealing

  lemma WithCons(m: Member<Json>, ms: seq<Member<Json>>, key: Text, value: Json)
    requires m.key != key
    ensures With([m] + ms, key, value) == [m] + With(ms, key, value)
  {
    assert ([m] + ms)[1..] == ms;
  }

  /** Assignment reaches the member behind other keys. */
  lemma {:induction false} WithBehind(ms: seq<Member<Json>>, ns: seq<Member<Json>>, key: Text, value: Json)
    requires key !in Keys(ms)
    ensures With(ms + ns, key, value) == ms + With(ns, key, value)
  {
    if ms == [] {
      assert ms + ns == ns;
    } else {
      var m, rest := ms[0], ms[1..];
      assert ms == [m] + rest;
      KeysCons(m, rest);
      WithBehind(rest, ns, key, value);
      Assoc([m], rest, ns);
      WithCons(m, rest + ns, key, value);
      Assoc([m], rest, With(ns, key, value));
    }
  }

  lemma {:induction false} WithoutBehind(ms: seq<Member<Json>>, ns: seq<Member<Json>>, key: Text)
    requires key !in Keys(ms)
    ensures Without(ms + ns, key) == ms + Without(ns, key)
  {
    if ms == [] {
      assert ms + ns == ns;
    } else {
      assert ms == [ms[0]] + ms[1..];
      KeysCons(ms[0], ms[1..]);
      WithoutBehind(ms[1..], ns, key);
      assert (ms + ns)[1..] == ms[1..] + ns;
    }
  }

  lemma ChainBehind(r: Record)
    ensures CHAIN !in Keys(Heading(r)) && CHAIN !in Keys(Judgement(r))
  {
    assert |CHAIN| == 5;
    assert forall k | 0 <= k < |Heading(r)| :: |Heading(r)[k].key| > 5;
    assert forall k | 0 <= k < |Judgement(r)| :: |Judgement(r)[k].key| > 5;
  }

  /** Assignment to the chain of a record. */
  lemma ChainOfRecord(r: Record, chain: Json)
    ensures Get(ToJson(r), CHAIN) == ChainJson(r)
    ensures With(ToJson(r).members, CHAIN, chain)
      == Heading(r) + (Judgement(r) + ([Member(CHAIN, chain)] + Trailer(r)))
  {
    var rest := [Member(CHAIN, ChainJson(r))] + Trailer(r);
    ChainBehind(r);
    WithBehind(Heading(r), Judgement(r) + rest, CHAIN, chain);
    WithBehind(Judgement(r), rest, CHAIN, chain);
    LookupConcat(Heading(r), Judgement(r) + rest, CHAIN);
    LookupConcat(Judgement(r), rest, CHAIN);
    assert rest[1..] == Trailer(r);
  }

  lemma HashOfChain(r: Record, hash: Json)
    ensures With(ChainJson(r).members, RECORD_HASH, hash) == Linkage(r) + [Member(RECORD_HASH, hash)]
    ensures Without(ChainJson(r).members, RECORD_HASH) == Linkage(r)
    ensures Distinct(ChainJson(r).members)
  {
    assert |RECORD_HASH| == 11;
    assert |Linkage(r)[0].key| == 14 && |Linkage(r)[1].key| == 20;
    var last := [Member(RECORD_HASH, Str(r.recordHash))];
    WithBehind(Linkage(r), last, RECORD_HASH, hash);
    WithoutBehind(Linkage(r), last, RECORD_HASH);
    assert last[1..] == [];
  }

  /** The record without its hash. */
  function Projection(r: Record): Json {
    Obj(Heading(r) + (Judgement(r) + ([Member(CHAIN, Obj(Linkage(r)))] + Trailer(r))))
  }

  /** Sealing the JSON form is setting the record's hash field, and the hash covers everything else. */
  lemma SealOfRecord(r: Record, hash: Text)
    ensures HasChain(ToJson(r)) && Distinct(Get(ToJson(r), CHAIN).members)
    ensures Sealed(ToJson(r), Str(hash)) == ToJson(r.(recordHash := hash))
    ensures Unsealed(ToJson(r)) == Projection(r)
  {
    ChainOfRecord(r, ChainJson(r.(recordHash := hash)));
    ChainOfRecord(r, Obj(Linkage(r)));
    HashOfChain(r, Str(hash));
  }

  // ---------------------------------------------------------------- which records can be sealed

  predicate MembersInDomain(ms: seq<Member<Json>>) {
    forall i | 0 <= i < |ms| :: WellFormed(ms[i].key) && InDomain(ms[i].value)
  }

  lemma DomainConcat(ms: seq<Member<Json>>, ns: seq<Member<Json>>)
    ensures MembersInDomain(ms + ns) <==> MembersInDomain(ms) && MembersInDomain(ns)
  {
    if MembersInDomain(ms + ns) {
      assert forall i | 0 <= i < |ms| :: ms[i] == (ms + ns)[i];
      assert forall i | 0 <= i < |ns| :: ns[i] == (ms + ns)[|ms| + i];
    }
  }

  lemma DomainOptional(key: Text, value: Json)
    requires Ascii(key)
    ensures MembersInDomain(Optional(key, value)) <==> value.Undef? || InDomain(value)
  {
    AsciiWellFormed(key);
    if !value.Undef? {
      assert Optional(key, value)[0].value == value;
    }
  }

  /** A member with an ASCII name and an ASCII value. */
  lemma AsciiMember(key: Text, t: Text)
    requires Ascii(key) && Ascii(t)
    ensures MembersInDomain([Member(key, Str(t))])
  {
    AsciiWellFormed(key);
    AsciiWellFormed(t);
  }

  lemma NamedMember(key: Text, v: Json)
    requires Ascii(key)
    ensures MembersInDomain([Member(key, v)]) <==> InDomain(v)
  {
    AsciiWellFormed(key);
    assert [Member(key, v)][0].value == v;
  }

  lemma EightMembers(a: Member<Json>, b: Member<Json>, c: Member<Json>, d: Member<Json>,
                     e: Member<Json>, f: Member<Json>, g: Member<Json>, h: Member<Json>)
    ensures MembersInDomain([a, b, c, d, e, f, g, h]) <==>
      && MembersInDomain([a]) && MembersInDomain([b]) && MembersInDomain([c]) && MembersInDomain([d])
      && MembersInDomain([e]) && MembersInDomain([f]) && MembersInDomain([g]) && MembersInDomain([h])
  {
    SixMembers(a, b, c, d, e, f);
    DomainConcat([g], [h]);
    assert [g] + [h] == [g, h];
    DomainConcat([a, b, c, d, e, f], [g, h]);
    assert [a, b, c, d, e, f] + [g, h] == [a, b, c, d, e, f, g, h];
  }

  lemma SixMembers(a: Member<Json>, b: Member<Json>, c: Member<Json>, d: Member<Json>, e: Member<Json>, f: Member<Json>)
    ensures MembersInDomain([a, b, c, d, e, f]) <==>
      && MembersInDomain([a]) && MembersInDomain([b]) && MembersInDomain([c])
      && MembersInDomain([d]) && MembersInDomain([e]) && MembersInDomain([f])
  {
    ThreeMembers(a, b, c);
    ThreeMembers(d, e, f);
    DomainConcat([a, b, c], [d, e, f]);
    assert [a, b, c] + [d, e, f] == [a, b, c, d, e, f];
  }

  lemma ThreeMembers(a: Member<Json>, b: Member<Json>, c: Member<Json>)
    ensures MembersInDomain([a, b, c]) <==> MembersInDomain([a]) && MembersInDomain([b]) && MembersInDomain([c])
  {
    DomainConcat([a], [b]);
    DomainConcat([a] + [b], [c]);
    assert [a] + [b] + [c] == [a, b, c];
  }

  lemma HashInDomain(v: Json)
    requires IsHash(v)
    ensures InDomain(v)
  {
    AsciiWellFormed(v.s);
  }

  predicate HashOrNull(v: Json) {
    v.Null? || IsHash(v)
  }

  predicate AllAscii(ts: seq<Code>) {
    forall i | 0 <= i < |ts| :: Ascii(ts[i])
  }

  predicate AllWellFormed(ts: seq<Code>) {
    forall i | 0 <= i < |ts| :: WellFormed(ts[i])
  }

  lemma CodesInDomain(ts: seq<Code>)
    ensures InDomain(Codes(ts)) <==> AllWellFormed(ts)
    ensures AllAscii(ts) ==> AllWellFormed(ts)
  {
    if AllAscii(ts) {
      forall i | 0 <= i < |ts| ensures WellFormed(ts[i]) {
        AsciiWellFormed(ts[i]);
      }
    }
    assert forall i | 0 <= i < |ts| :: Codes(ts).items[i] == Str(ts[i]);
  }

  /** What every derived record has: hashes where hashes belong, and codes in ASCII. */
  predicate Shaped(r: Record) {
    && Ascii(r.verifierVersion) && Ascii(r.rulesetHash) && AllAscii(r.appliedRules)
    && IsHash(r.admissionReceiptHash) && IsHash(r.consequenceReceiptHash) && IsHash(r.previousRecordHash)
    && HashOrNull(r.conformance.actualActionHash) && HashOrNull(r.conformance.contractHash)
    && HashOrNull(r.conformance.observedConsequenceHash)
    && (r.conformance.authorizedActionHash.Undef? || IsHash(r.conformance.authorizedActionHash))
    && (r.invalidityReasons.Some? ==> AllAscii(r.invalidityReasons.value))
  }

  predicate BindingSealable(b: Binding) {
    && WellFormed(b.executionId) && InDomain(b.nonce) && InDomain(b.nonceState)
    && (b.attempt.Undef? || InDomain(b.attempt))
    && (b.mandateId.Undef? || InDomain(b.mandateId))
    && (b.occurrence.Undef? || InDomain(b.occurrence))
  }

  /** The fields that come from outside are in the strict domain. */
  predicate Sealable(r: Record) {
    && WellFormed(r.recordId) && WellFormed(r.createdAt)
    && InDomain(r.conformance.mode)
    && InDomain(r.conformance.evaluatorId) && InDomain(r.conformance.evaluatorVersion)
    && SafeInteger(r.chainPosition)
    && (r.binding.Some? ==> BindingSealable(r.binding.value))
    && (r.unresolvedReasons.Some? ==> AllWellFormed(r.unresolvedReasons.value))
  }

  lemma HeadingInDomain(r: Record)
    requires Shaped(r)
    ensures MembersInDomain(Heading(r)) <==> WellFormed(r.recordId) && WellFormed(r.createdAt)
  {
    var ms := Heading(r);
    HashInDomain(r.admissionReceiptHash);
    HashInDomain(r.consequenceReceiptHash);
    EightMembers(ms[0], ms[1], ms[2], ms[3], ms[4], ms[5], ms[6], ms[7]);
    AsciiMember(ms[0].key, ms[0].value.s);
    AsciiMember(ms[1].key, ms[1].value.s);
    NamedMember(ms[2].key, ms[2].value);
    NamedMember(ms[3].key, ms[3].value);
    ProfileInDomain();
    NamedMember(ms[4].key, ms[4].value);
    AsciiMember(ms[5].key, ms[5].value.s);
    NamedMember(ms[6].key, ms[6].value);
    NamedMember(ms[7].key, ms[7].value);
    assert ms == [ms[0], ms[1], ms[2], ms[3], ms[4], ms[5], ms[6], ms[7]];
  }

  lemma ProfileInDomain()
    ensures InDomain(CANONICALIZATION_FIELDS)
  {
    var ms := CANONICALIZATION_FIELDS.members;
    ThreeMembers(ms[0], ms[1], ms[2]);
    AsciiMember(ms[0].key, ms[0].value.s);
    AsciiMember(ms[1].key, ms[1].value.s);
    AsciiMember(ms[2].key, ms[2].value.s);
    assert ms == [ms[0], ms[1], ms[2]];
  }

  lemma ConformanceInDomain(c: ConformanceRecord)
    requires HashOrNull(c.actualActionHash) && HashOrNull(c.contractHash) && HashOrNull(c.observedConsequenceHash)
    requires c.authorizedActionHash.Undef? || IsHash(c.authorizedActionHash)
    ensures InDomain(ConformanceJson(c)) <==> InDomain(c.mode) && InDomain(c.evaluatorId) && InDomain(c.evaluatorVersion)
  {
    var middle := Optional(AUTHORIZED_ACTION_HASH, c.authorizedActionHash);
    DomainConcat(Outcomes(c), middle + (Hashes(c) + EvaluatorFields(c)));
    DomainConcat(middle, Hashes(c) + EvaluatorFields(c));
    DomainConcat(Hashes(c), EvaluatorFields(c));
    DomainOptional(AUTHORIZED_ACTION_HASH, c.authorizedActionHash);
    OutcomesInDomain(c);
    if c.authorizedActionHash.Str? { HashInDomain(c.authorizedActionHash); }
  }

  lemma HashOrNullInDomain(v: Json)
    requires HashOrNull(v)
    ensures InDomain(v)
  {
    if v.Str? {
      HashInDomain(v);
    }
  }

  lemma NameAscii(action: Conformance)
    ensures Ascii(ConformanceName(action))
  {
  }

  lemma OutcomesInDomain(c: ConformanceRecord)
    requires HashOrNull(c.actualActionHash) && HashOrNull(c.contractHash) && HashOrNull(c.observedConsequenceHash)
    ensures MembersInDomain(Outcomes(c)) <==> InDomain(c.mode)
    ensures MembersInDomain(Hashes(c))
    ensures MembersInDomain(EvaluatorFields(c)) <==> InDomain(c.evaluatorId) && InDomain(c.evaluatorVersion)
  {
    var os, hs, es := Outcomes(c), Hashes(c), EvaluatorFields(c);
    NameAscii(c.action);
    NameAscii(c.consequence);
    NamedMember(os[2].key, os[2].value);
    AsciiMember(os[0].key, ConformanceName(c.action));
    AsciiMember(os[1].key, ConformanceName(c.consequence));
    ThreeMembers(os[0], os[1], os[2]);
    HashOrNullInDomain(c.actualActionHash);
    HashOrNullInDomain(c.contractHash);
    HashOrNullInDomain(c.observedConsequenceHash);
    NamedMember(hs[0].key, hs[0].value);
    NamedMember(hs[1].key, hs[1].value);
    NamedMember(hs[2].key, hs[2].value);
    ThreeMembers(hs[0], hs[1], hs[2]);
    NamedMember(es[0].key, es[0].value);
    NamedMember(es[1].key, es[1].value);
    DomainConcat([es[0]], [es[1]]);
    assert es == [es[0]] + [es[1]];
  }

  lemma VerifierInDomain(version: Text, rulesetHash: Text)
    requires Ascii(version) && Ascii(rulesetHash)
    ensures InDomain(VerifierJson(version, rulesetHash))
  {
    var ms := VerifierJson(version, rulesetHash).members;
    AsciiMember(ms[0].key, ms[0].value.s);
    AsciiMember(ms[1].key, version);
    AsciiMember(ms[2].key, rulesetHash);
    AsciiMember(ms[3].key, ms[3].value.s);
    AsciiMember(ms[4].key, ms[4].value.s);
    ThreeMembers(ms[0], ms[1], ms[2]);
    DomainConcat([ms[3]], [ms[4]]);
    DomainConcat([ms[0], ms[1], ms[2]], [ms[3]] + [ms[4]]);
    assert ms == [ms[0], ms[1], ms[2]] + ([ms[3]] + [ms[4]]);
  }

  lemma JudgementNamesAscii(r: Record)
    ensures Ascii(EvidenceName(r.evidenceStatus)) && Ascii(VerdictName(r.verifierResult)) && Ascii(RoutingName(r.routing))
  {
  }

  lemma JudgementInDomain(r: Record)
    requires Shaped(r)
    ensures MembersInDomain(Judgement(r)) <==> InDomain(ConformanceJson(r.conformance))
  {
    var ms := Judgement(r);
    VerifierInDomain(r.verifierVersion, r.rulesetHash);
    CodesInDomain(r.appliedRules);
    JudgementNamesAscii(r);
    NamedMember(ms[0].key, ms[0].value);
    AsciiMember(ms[1].key, EvidenceName(r.evidenceStatus));
    AsciiMember(ms[2].key, VerdictName(r.verifierResult));
    NamedMember(ms[3].key, ms[3].value);
    AsciiMember(ms[4].key, RoutingName(r.routing));
    NamedMember(ms[5].key, ms[5].value);
    SixMembers(ms[0], ms[1], ms[2], ms[3], ms[4], ms[5]);
    assert ms == [ms[0], ms[1], ms[2], ms[3], ms[4], ms[5]];
  }

  lemma LinkageInDomain(r: Record)
    requires Shaped(r)
    ensures MembersInDomain([Member(CHAIN, Obj(Linkage(r)))]) <==> SafeInteger(r.chainPosition)
  {
    var ms := Linkage(r);
    HashInDomain(r.previousRecordHash);
    NamedMember(ms[0].key, ms[0].value);
    NamedMember(ms[1].key, ms[1].value);
    DomainConcat([ms[0]], [ms[1]]);
    assert ms == [ms[0]] + [ms[1]];
    NamedMember(CHAIN, Obj(ms));
  }

  lemma BindingInDomain(b: Binding)
    ensures InDomain(BindingJson(b)) <==> BindingSealable(b)
  {
    var id, nonce := Member(U("execution_id"), Str(b.executionId)), Member(AUTHORIZATION_NONCE, b.nonce);
    var state := Member(U("authorization_nonce_state"), b.nonceState);
    var attempt := Optional(U("execution_attempt"), b.attempt);
    var mandate, occurrence := Optional(U("mandate_id"), b.mandateId), Optional(U("occurrence_index"), b.occurrence);
    NamedMember(id.key, id.value);
    NamedMember(nonce.key, nonce.value);
    NamedMember(state.key, state.value);
    ThreeMembers(id, nonce, state);
    DomainConcat([id, nonce, state], attempt + (mandate + occurrence));
    DomainConcat(attempt, mandate + occurrence);
    DomainConcat(mandate, occurrence);
    DomainOptional(U("execution_attempt"), b.attempt);
    DomainOptional(U("mandate_id"), b.mandateId);
    DomainOptional(U("occurrence_index"), b.occurrence);
  }

  lemma TrailerInDomain(r: Record)
    requires Shaped(r)
    ensures MembersInDomain(Trailer(r)) <==>
      && (r.binding.Some? ==> BindingSealable(r.binding.value))
      && (r.unresolvedReasons.Some? ==> AllWellFormed(r.unresolvedReasons.value))
  {
    var binding := Optional(U("execution_binding"), OptionalBinding(r.binding));
    var invalid := Optional(U("invalidity_reasons"), OptionalCodes(r.invalidityReasons));
    var unresolved := Optional(U("unresolved_reasons"), OptionalCodes(r.unresolvedReasons));
    DomainConcat(binding, invalid + unresolved);
    DomainConcat(invalid, unresolved);
    DomainOptional(U("execution_binding"), OptionalBinding(r.binding));
    DomainOptional(U("invalidity_reasons"), OptionalCodes(r.invalidityReasons));
    DomainOptional(U("unresolved_reasons"), OptionalCodes(r.unresolvedReasons));
    if r.binding.Some? { BindingInDomain(r.binding.value); }
    if r.invalidityReasons.Some? { CodesInDomain(r.invalidityReasons.value); }
    if r.unresolvedReasons.Some? { CodesInDomain(r.unresolvedReasons.value); }
  }

  /** A derived record can be canonicalized exactly when the fields that come from outside can. */
  lemma SealableExactly(r: Record)
    requires Shaped(r)
    ensures InDomain(Projection(r)) <==> Sealable(r)
  {
    var chain := [Member(CHAIN, Obj(Linkage(r)))];
    DomainConcat(Heading(r), Judgement(r) + (chain + Trailer(r)));
    DomainConcat(Judgement(r), chain + Trailer(r));
    DomainConcat(chain, Trailer(r));
    HeadingInDomain(r);
    JudgementInDomain(r);
    ConformanceInDomain(r.conformance);
    LinkageInDomain(r);
    TrailerInDomain(r);
  }
}
