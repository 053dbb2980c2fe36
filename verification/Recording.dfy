/** When an assessment record is returned, and with which disposition. */
module Recording {
  import opened Unicode
  import opened Values
  import opened StrictCanonical
  import opened Platform
  import opened Seal
  import opened Coherence
  import opened ReasonLists
  import opened Records
  import opened Derivation

  // ---------------------------------------------------------------- the codes that can be listed

  /** Codes in ASCII, but for one. */
  ghost predicate AsciiBut(f: Findings, odd: Code) {
    && (forall c | c in f.invalid :: Ascii(c))
    && (forall c | c in f.unresolved :: Ascii(c) || c == odd)
  }

  lemma AsciiBoth(f: Findings, g: Findings, odd: Code)
    requires AsciiBut(f, odd) && AsciiBut(g, odd)
    ensures AsciiBut(Both(f, g), odd)
  {
  }

  lemma {:induction false} AsciiPooled(fs: seq<Findings>, odd: Code)
    requires forall k | 0 <= k < |fs| :: AsciiBut(fs[k], odd)
    ensures AsciiBut(BothAll(fs), odd)
  {
    if fs != [] {
      AsciiPooled(fs[1..], odd);
      AsciiBoth(fs[0], BothAll(fs[1..]), odd);
    }
  }

  lemma AsciiStatuses(evidence: Json, odd: Code)
    ensures AsciiBut(AdmissionCrypto(evidence), odd)
    ensures AsciiBut(ConsequenceCrypto(evidence), odd) && AsciiBut(SentinelCrypto(evidence), odd)
  {
  }

  lemma AsciiCrypto(evidence: Json, odd: Code)
    ensures AsciiBut(CryptoRule(evidence), odd)
  {
    if evidence.Obj? {
      var a, b, c := AdmissionCrypto(evidence), ConsequenceCrypto(evidence), SentinelCrypto(evidence);
      AsciiStatuses(evidence, odd);
      AsciiBoth(b, c, odd);
      AsciiBoth(a, Both(b, c), odd);
    }
  }

  lemma AsciiReceipts(i: Inputs, e: Evidence, odd: Code)
    ensures AsciiBut(ReceiptRule(i.admission, i.consequence, e), odd)
  {
  }

  lemma AsciiBindings(i: Inputs, e: Evidence, odd: Code)
    ensures AsciiBut(ChainRule(e), odd) && AsciiBut(NonceRule(e), odd) && AsciiBut(ReplayRule(i.nonceState), odd)
  {
  }

  lemma AsciiRest(p: Platform, e: Evidence, odd: Code)
    ensures AsciiBut(TimeRule(p, e), odd) && AsciiBut(ExecutorRule(e), odd) && AsciiBut(ProfileRule(e), odd)
    ensures AsciiBut(ActionRule(e), odd)
  {
  }

  lemma AsciiBase(p: Platform, i: Inputs, e: Evidence, odd: Code)
    ensures AsciiBut(BothAll(BaseRules(p, i, e)), odd)
  {
    AsciiReceipts(i, e, odd);
    AsciiCrypto(i.cryptographicEvidence, odd);
    AsciiBindings(i, e, odd);
    AsciiRest(p, e, odd);
    EightAscii(
      ReceiptRule(i.admission, i.consequence, e), CryptoRule(i.cryptographicEvidence), ChainRule(e), NonceRule(e),
      ReplayRule(i.nonceState), TimeRule(p, e), ExecutorRule(e), ProfileRule(e), odd);
  }

  lemma AsciiLast(base: Findings, a: Findings, b: Findings, odd: Code)
    requires AsciiBut(base, odd) && AsciiBut(a, odd) && AsciiBut(b, odd)
    ensures AsciiBut(if base.invalid != {} then base else Both(base, Both(a, b)), odd)
  {
  }

  /** The one code that comes from outside: the evaluator's reason, where the consequence stays open. */
  function OutsideCode(c: Consequence): Code {
    if c.status == INDETERMINATE then OutcomeReason(c) else CONSEQUENCE_CONFORMANCE_INDETERMINATE
  }

  lemma AsciiOutcome(evaluator: Evaluator, e: Evidence)
    ensures AsciiBut(OutcomeRule(evaluator, e), OutsideCode(ConsequenceConformance(e, evaluator)))
  {
  }

  /** Only the evaluator's own reason can be anything but ASCII. */
  lemma AsciiGathered(p: Platform, i: Inputs, e: Evidence)
    ensures AsciiBut(Gathered(p, i, e), OutsideCode(ConsequenceConformance(e, i.evaluator)))
  {
    var odd := OutsideCode(ConsequenceConformance(e, i.evaluator));
    AsciiBase(p, i, e, odd);
    AsciiRest(p, e, odd);
    AsciiOutcome(i.evaluator, e);
    AsciiLast(BothAll(BaseRules(p, i, e)), ActionRule(e), OutcomeRule(i.evaluator, e), odd);
  }

  lemma EightAscii(a: Findings, b: Findings, c: Findings, d: Findings,
                   e: Findings, f: Findings, g: Findings, h: Findings, odd: Code)
    requires AsciiBut(a, odd) && AsciiBut(b, odd) && AsciiBut(c, odd) && AsciiBut(d, odd)
    requires AsciiBut(e, odd) && AsciiBut(f, odd) && AsciiBut(g, odd) && AsciiBut(h, odd)
    ensures AsciiBut(BothAll([a, b, c, d, e, f, g, h]), odd)
  {
    AsciiPooled([a, b, c, d, e, f, g, h], odd);
  }

  lemma AppliedAscii(clean: bool)
    ensures forall c | c in AppliedRules(clean) :: Ascii(c)
  {
  }

  lemma ListedAscii(s: set<Code>)
    requires forall c | c in s :: Ascii(c)
    ensures AllAscii(Listing(s))
  {
    forall k | 0 <= k < |Listing(s)| ensures Ascii(Listing(s)[k]) {
      assert Listing(s)[k] in Elements(Listing(s));
    }
  }

  lemma ListedWellFormed(s: set<Code>, odd: Code)
    requires forall c | c in s :: Ascii(c) || c == odd
    ensures AllWellFormed(Listing(s)) <==> (odd in s ==> WellFormed(odd))
  {
    var ts := Listing(s);
    forall k | 0 <= k < |ts| ensures ts[k] in s && (ts[k] != odd ==> WellFormed(ts[k])) {
      assert ts[k] in Elements(ts);
      if ts[k] != odd {
        AsciiWellFormed(ts[k]);
      }
    }
    if odd in s {
      assert odd in Elements(ts);
      var k :| 0 <= k < |ts| && ts[k] == odd;
    }
  }

  // ---------------------------------------------------------------- when a record is returned

  lemma ActionNeverInvalidates(p: Platform, i: Inputs, e: Evidence)
    ensures Gathered(p, i, e).invalid == BothAll(BaseRules(p, i, e)).invalid
    ensures Gathered(p, i, e).invalid == {} ==>
      && (ActionConformance(e) == INDETERMINATE ==> ACTION_CONFORMANCE_INDETERMINATE in Gathered(p, i, e).unresolved)
      && var c := ConsequenceConformance(e, i.evaluator);
         c.status == INDETERMINATE ==> OutcomeReason(c) in Gathered(p, i, e).unresolved
  {
  }

  /** What a caller must see to before the call for the record to be written at all: outside text is well-formed,
      outside values are in the strict domain, and the chain has a next position. */
  predicate Recordable(i: Inputs, e: Evidence, c: Consequence)
    requires HasMetadata(i.metadata)
  {
    var binding := BindingOf(i.consequence, e, i.nonceState);
    && WellFormed(Get(i.metadata, RECORD_ID).s) && WellFormed(Get(i.metadata, CREATED_AT).s)
    && InDomain(ModeOf(e)) && InDomain(c.evaluatorId) && InDomain(c.evaluatorVersion)
    && Path(i.consequence, CHAIN, CHAIN_POSITION) != Num(MAX_SAFE)
    && (binding.Some? ==> BindingRecordable(binding.value))
    && (c.status == INDETERMINATE ==> WellFormed(c.reason))
  }

  predicate BindingRecordable(b: Binding) {
    && WellFormed(b.executionId) && InDomain(b.nonce) && InDomain(b.nonceState)
    && (b.mandateId.Str? ==> WellFormed(b.mandateId.s))
  }

  lemma BindingFields(consequence: Json, e: Evidence, nonceState: Json)
    requires BindingOf(consequence, e, nonceState).Some?
    ensures var b := BindingOf(consequence, e, nonceState).value; BindingSealable(b) <==> BindingRecordable(b)
  {
  }

  lemma PositionFits(consequence: Json)
    ensures SafeInteger(ChainPositionOf(consequence)) <==> Path(consequence, CHAIN, CHAIN_POSITION) != Num(MAX_SAFE)
  {
  }

  lemma OrNull(v: Json)
    requires v.Null? || Truthy(v)
    ensures Or(v, Null) == v
  {
  }

  lemma ConsequenceFields(i: Inputs, e: Evidence, clean: bool)
    ensures var c := ConsequenceOf(i, e, clean);
      && c.mode == ModeOf(e)
      && (c.evaluatorId.Null? || Truthy(c.evaluatorId)) && (c.evaluatorVersion.Null? || Truthy(c.evaluatorVersion))
  {
  }

  /** What is settled about the consequence fits its evaluation, the verdict and the reasons. */
  predicate Consistent(e: Evidence, s: Settled) {
    var c := s.consequence;
    && c.mode == ModeOf(e)
    && (c.evaluatorId.Null? || Truthy(c.evaluatorId)) && (c.evaluatorVersion.Null? || Truthy(c.evaluatorVersion))
    && (s.verdict == VALID ==> c.status != INDETERMINATE)
    && (s.verdict == UNRESOLVED ==>
         (AllWellFormed(s.unresolved) <==> (c.status == INDETERMINATE ==> WellFormed(c.reason))))
    && (s.verdict == INVALID ==> c.reason == [])
  }

  lemma ComposeSealable(rulesetHash: Text, i: Inputs, e: Evidence, s: Settled)
    requires HasMetadata(i.metadata) && Consistent(e, s)
    ensures Sealable(Compose(rulesetHash, i, e, s)) <==> Recordable(i, e, s.consequence)
  {
    OrNull(s.consequence.evaluatorId);
    OrNull(s.consequence.evaluatorVersion);
    PositionFits(i.consequence);
    if BindingOf(i.consequence, e, i.nonceState).Some? {
      BindingFields(i.consequence, e, i.nonceState);
    }
  }

  lemma ComposeShaped(rulesetHash: Text, i: Inputs, e: Evidence, s: Settled)
    requires HasMetadata(i.metadata) && Ascii(Get(i.metadata, VERIFIER_VERSION).s) && Ascii(rulesetHash)
    requires AllAscii(s.appliedRules) && AllAscii(s.invalid)
    ensures Shaped(Compose(rulesetHash, i, e, s))
  {
  }

  lemma OutcomeShaped(p: Platform, i: Inputs, e: Evidence)
    ensures AllAscii(Outcome(p, i, e).appliedRules) && AllAscii(Outcome(p, i, e).invalid)
  {
    var f := Gathered(p, i, e);
    AsciiGathered(p, i, e);
    ListedAscii(f.invalid);
    AppliedAscii(f.invalid == {});
    ListedAscii(AppliedRules(f.invalid == {}));
  }

  lemma ReasonsWellFormed(f: Findings, c: Consequence)
    requires AsciiBut(f, OutsideCode(c))
    requires c.status == INDETERMINATE ==> OutcomeReason(c) in f.unresolved
    ensures AllWellFormed(Listing(f.unresolved)) <==> (c.status == INDETERMINATE ==> WellFormed(c.reason))
  {
    ListedWellFormed(f.unresolved, OutsideCode(c));
    AsciiWellFormed(CONSEQUENCE_CONFORMANCE_INDETERMINATE);
  }

  lemma OutcomeConsistent(p: Platform, i: Inputs, e: Evidence)
    ensures Consistent(e, Outcome(p, i, e))
  {
    var f := Gathered(p, i, e);
    VerdictIsMeet(p, i, e);
    AsciiGathered(p, i, e);
    ActionNeverInvalidates(p, i, e);
    ConsequenceFields(i, e, f.invalid == {});
    if f.invalid == {} {
      ReasonsWellFormed(f, ConsequenceConformance(e, i.evaluator));
    }
  }

  /** The record can be sealed exactly when what comes from outside can be recorded. */
  predicate SealsIfRecordable(rulesetHash: Text, i: Inputs, e: Evidence, s: Settled)
    requires HasMetadata(i.metadata)
  {
    InDomain(Projection(Compose(rulesetHash, i, e, s))) <==> Recordable(i, e, s.consequence)
  }

  predicate Ready(e: Evidence, s: Settled) {
    Consistent(e, s) && AllAscii(s.appliedRules) && AllAscii(s.invalid)
  }

  lemma OutcomeReady(p: Platform, i: Inputs, e: Evidence)
    ensures Ready(e, Outcome(p, i, e))
  {
    OutcomeShaped(p, i, e);
    OutcomeConsistent(p, i, e);
  }

  lemma SettledSealable(rulesetHash: Text, i: Inputs, e: Evidence, s: Settled)
    requires HasMetadata(i.metadata) && Ascii(Get(i.metadata, VERIFIER_VERSION).s) && Ascii(rulesetHash)
    requires Ready(e, s)
    ensures SealsIfRecordable(rulesetHash, i, e, s)
  {
    ComposeShaped(rulesetHash, i, e, s);
    ComposeSealable(rulesetHash, i, e, s);
    SealableExactly(Compose(rulesetHash, i, e, s));
  }

  lemma VersionAscii(p: Platform, m: Json)
    requires MetadataError(p, m).None?
    ensures HasMetadata(m) && Ascii(Get(m, VERIFIER_VERSION).s)
  {
    SemverAscii(Get(m, VERIFIER_VERSION).s);
  }

  lemma HashOfDraft(p: Platform, r: Record)
    ensures RecordHash(p, ToJson(r)).Ok? <==> InDomain(Projection(r))
    ensures RecordHash(p, ToJson(r)).Err? ==> HasFault(Projection(r), RecordHash(p, ToJson(r)).code)
  {
    SealOfRecord(r, r.recordHash);
    StrictExact(Projection(r));
  }

  lemma DerivedFromExactly(p: Platform, rulesetHash: Text, i: Inputs, e: Evidence, s: Settled)
    requires Ascii(rulesetHash) && Ready(e, s)
    ensures var r := DerivedFrom(p, rulesetHash, i, e, s);
      && (r.Ok? <==> MetadataError(p, i.metadata).None? && Recordable(i, e, s.consequence))
      && (r.Ok? ==> r.value.disposition == DispositionOf(s.verdict))
  {
    if MetadataError(p, i.metadata).None? {
      VersionAscii(p, i.metadata);
      SettledSealable(rulesetHash, i, e, s);
      HashOfDraft(p, Compose(rulesetHash, i, e, s));
    }
  }

  lemma ErrorOfDraft(p: Platform, rulesetHash: Text, i: Inputs, e: Evidence, s: Settled)
    requires DerivedFrom(p, rulesetHash, i, e, s).Err?
    ensures var code := DerivedFrom(p, rulesetHash, i, e, s).code;
      || MetadataError(p, i.metadata) == Some(code)
      || (MetadataError(p, i.metadata).None? && HasFault(Projection(Compose(rulesetHash, i, e, s)), code))
  {
    if MetadataError(p, i.metadata).None? {
      HashOfDraft(p, Compose(rulesetHash, i, e, s));
    }
  }

  lemma OutcomeConsequence(p: Platform, i: Inputs, e: Evidence)
    ensures Outcome(p, i, e).consequence == ConsequenceOf(i, e, !Contradicts(p, i, e))
  {
    InvalidExactly(p, i, e);
  }

  lemma OutcomeVerdict(p: Platform, i: Inputs, e: Evidence)
    ensures Outcome(p, i, e).verdict == VALID <==> Closes(p, i, e)
    ensures Outcome(p, i, e).verdict == INVALID <==> Contradicts(p, i, e)
  {
    VerdictIsMeet(p, i, e);
    ValidExactly(p, i, e);
    InvalidExactly(p, i, e);
  }

  /** A record is returned or not, and with which disposition. */
  ghost predicate ReturnedAs(r: Result<Assessment>, recorded: bool, closes: bool, contradicts: bool) {
    && (r.Ok? <==> recorded)
    && (r.Ok? ==> (r.value.disposition == DERIVED <==> closes))
    && (r.Ok? ==> (r.value.disposition == REFUSED_INVALID <==> contradicts))
  }

  ghost predicate Recorded(p: Platform, i: Inputs, e: Evidence, clean: bool) {
    MetadataError(p, i.metadata).None? && Recordable(i, e, ConsequenceOf(i, e, clean))
  }

  /** The outcome is that of the evidence. */
  ghost predicate Settles(p: Platform, i: Inputs, e: Evidence, s: Settled) {
    && Ready(e, s)
    && s.consequence == ConsequenceOf(i, e, !Contradicts(p, i, e))
    && (s.verdict == VALID <==> Closes(p, i, e))
    && (s.verdict == INVALID <==> Contradicts(p, i, e))
  }

  lemma OutcomeSettles(p: Platform, i: Inputs, e: Evidence)
    ensures Settles(p, i, e, Outcome(p, i, e))
  {
    OutcomeReady(p, i, e);
    OutcomeConsequence(p, i, e);
    OutcomeVerdict(p, i, e);
  }

  lemma DerivedFromAs(p: Platform, rulesetHash: Text, i: Inputs, e: Evidence, s: Settled)
    requires Ascii(rulesetHash) && Settles(p, i, e, s)
    ensures ReturnedAs(DerivedFrom(p, rulesetHash, i, e, s), Recorded(p, i, e, !Contradicts(p, i, e)),
                       Closes(p, i, e), Contradicts(p, i, e))
  {
    DerivedFromExactly(p, rulesetHash, i, e, s);
  }

  lemma DerivedAs(p: Platform, rulesetHash: Text, i: Inputs, e: Evidence)
    requires Ascii(rulesetHash)
    ensures ReturnedAs(Derived(p, rulesetHash, i, e), Recorded(p, i, e, !Contradicts(p, i, e)), Closes(p, i, e),
                       Contradicts(p, i, e))
  {
    OutcomeSettles(p, i, e);
    DerivedFromAs(p, rulesetHash, i, e, Outcome(p, i, e));
  }

  /** A record is returned exactly when the metadata is complete and what comes from outside can be recorded. */
  lemma ReturnsExactly(p: Platform, rulesetHash: Text, i: Inputs, e: Evidence)
    requires Ascii(rulesetHash)
    ensures Derived(p, rulesetHash, i, e).Ok? <==>
      && MetadataError(p, i.metadata).None?
      && Recordable(i, e, ConsequenceOf(i, e, !Contradicts(p, i, e)))
  {
    DerivedAs(p, rulesetHash, i, e);
    DispositionExactly(Derived(p, rulesetHash, i, e), p, i, e);
  }

  /** Otherwise the error says what is wrong with the metadata, or what stands in the record that canonical form does not
      admit. */
  lemma ErrorNamesFault(p: Platform, rulesetHash: Text, i: Inputs, e: Evidence)
    requires Derived(p, rulesetHash, i, e).Err?
    ensures var code := Derived(p, rulesetHash, i, e).code;
      || MetadataError(p, i.metadata) == Some(code)
      || (MetadataError(p, i.metadata).None? && HasFault(Projection(Drafted(p, rulesetHash, i, e)), code))
  {
    ErrorOfDraft(p, rulesetHash, i, e, Outcome(p, i, e));
  }

  lemma ClosedIsClean(p: Platform, i: Inputs, e: Evidence)
    ensures Closes(p, i, e) ==> !Contradicts(p, i, e)
  {
  }

  lemma DispositionExactly(r: Result<Assessment>, p: Platform, i: Inputs, e: Evidence)
    requires ReturnedAs(r, Recorded(p, i, e, !Contradicts(p, i, e)), Closes(p, i, e), Contradicts(p, i, e))
    ensures r.Ok? <==>
        && MetadataError(p, i.metadata).None?
        && Recordable(i, e, ConsequenceOf(i, e, !Contradicts(p, i, e)))
    ensures (r.Ok? && r.value.disposition == DERIVED) <==>
        && MetadataError(p, i.metadata).None?
        && Recordable(i, e, ConsequenceConformance(e, i.evaluator))
        && Closes(p, i, e)
    ensures (r.Ok? && r.value.disposition == REFUSED_INVALID) <==>
        && MetadataError(p, i.metadata).None?
        && Recordable(i, e, Plain(INDETERMINATE, ModeOf(e), []))
        && Contradicts(p, i, e)
  {
    ClosedIsClean(p, i, e);
  }

  /** DERIVED exactly when the metadata is complete, the record can be written, and the evidence closes. */
  lemma DerivedExactly(p: Platform, rulesetHash: Text, i: Inputs, e: Evidence)
    requires Ascii(rulesetHash)
    ensures var r := Derived(p, rulesetHash, i, e);
      (r.Ok? && r.value.disposition == DERIVED) <==>
        && MetadataError(p, i.metadata).None?
        && Recordable(i, e, ConsequenceConformance(e, i.evaluator))
        && Closes(p, i, e)
  {
    DerivedAs(p, rulesetHash, i, e);
    DispositionExactly(Derived(p, rulesetHash, i, e), p, i, e);
  }

  /** REFUSED_INVALID exactly when, instead, some evidence contradicts the rest; the evaluator is then not asked. */
  lemma RefusedInvalidExactly(p: Platform, rulesetHash: Text, i: Inputs, e: Evidence)
    requires Ascii(rulesetHash)
    ensures var r := Derived(p, rulesetHash, i, e);
      (r.Ok? && r.value.disposition == REFUSED_INVALID) <==>
        && MetadataError(p, i.metadata).None?
        && Recordable(i, e, Plain(INDETERMINATE, ModeOf(e), []))
        && Contradicts(p, i, e)
  {
    DerivedAs(p, rulesetHash, i, e);
    DispositionExactly(Derived(p, rulesetHash, i, e), p, i, e);
  }

  /** The code misses one case its documentation promises: an assessment after the last safe chain position is
      not derived however good its evidence. */
  lemma LastPositionNeverDerived(p: Platform, rulesetHash: Text, i: Inputs, e: Evidence)
    requires Ascii(rulesetHash) && Path(i.consequence, CHAIN, CHAIN_POSITION) == Num(MAX_SAFE)
    ensures Derived(p, rulesetHash, i, e).Err?
  {
    ReturnsExactly(p, rulesetHash, i, e);
  }
}
