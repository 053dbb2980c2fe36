/** What becomes of the verdict when evidence is changed or withdrawn: exactly when it rises. */
module Weakening {
  import opened Values
  import opened Platform
  import opened Receipts
  import opened Coherence

  // ---------------------------------------------------------------- one finding among many

  lemma {:induction false} MeetWith(vs: seq<Verdict>, k: nat, v: Verdict)
    requires k < |vs|
    ensures MeetAll(vs[k := v]) == Meet(v, MeetAll(vs[k := VALID]))
  {
    if k > 0 {
      MeetWith(vs[1..], k - 1, v);
      assert vs[k := v][1..] == vs[1..][k - 1 := v];
      assert vs[k := VALID][1..] == vs[1..][k - 1 := VALID];
    } else {
      assert vs[0 := v][1..] == vs[1..] == vs[0 := VALID][1..];
    }
  }

  /** Replacing one finding raises the meet exactly if it is replaced by a better one and was the only obstacle:
      the meet of the others lies above it. */
  lemma ReplacedFindingRaises(fs: seq<Findings>, k: nat, f: Findings)
    requires k < |fs|
    ensures Rank(MeetAll(Verdicts(fs[k := f]))) > Rank(MeetAll(Verdicts(fs))) <==>
      && Rank(VerdictOf(f)) > Rank(VerdictOf(fs[k]))
      && Rank(MeetAll(Verdicts(fs)[k := VALID])) > Rank(VerdictOf(fs[k]))
  {
    var vs := Verdicts(fs);
    MeetWith(vs, k, VerdictOf(f));
    MeetWith(vs, k, VerdictOf(fs[k]));
    assert Verdicts(fs[k := f]) == vs[k := VerdictOf(f)];
    assert vs[k := VerdictOf(fs[k])] == vs;
  }

  // ---------------------------------------------------------------- any change

  /** The verdict on `i'` and `e'` is better than that on `i` and `e`. */
  predicate Raises(p: Platform, i: Inputs, e: Evidence, i': Inputs, e': Evidence) {
    Rank(VerdictOf(Gathered(p, i', e'))) > Rank(VerdictOf(Gathered(p, i, e)))
  }

  /** The change ends a contradiction or closes what was open. */
  predicate Improves(p: Platform, i: Inputs, e: Evidence, i': Inputs, e': Evidence) {
    || (Contradicts(p, i, e) && !Contradicts(p, i', e'))
    || (!Closes(p, i, e) && Closes(p, i', e'))
  }

  /** Any change raises the verdict exactly if it does either. */
  lemma RaisesExactly(p: Platform, i: Inputs, e: Evidence, i': Inputs, e': Evidence)
    ensures Raises(p, i, e, i', e') <==> Improves(p, i, e, i', e')
  {
    ValidExactly(p, i, e);
    ValidExactly(p, i', e');
    InvalidExactly(p, i, e);
    InvalidExactly(p, i', e');
  }

  /** Whether the consequence is left open, all that counts of the evaluator's answer. */
  predicate LeavesOpen(i: Inputs, e: Evidence) {
    ConsequenceConformance(e, i.evaluator).status == INDETERMINATE
  }

  lemma AnswerImproves(p: Platform, i: Inputs, e: Evidence, i': Inputs, e': Evidence, evaluator: Evaluator)
    requires LeavesOpen(i', e') <==> LeavesOpen(i'.(evaluator := evaluator), e')
    ensures Improves(p, i, e, i', e') <==> Improves(p, i, e, i'.(evaluator := evaluator), e')
  {
  }

  /** The evaluator is shown the receipts, so a change of them may change its answer: as long as it leaves the consequence
      open or not as before, whether the verdict rises stays the same. */
  lemma AnswerMayDiffer(p: Platform, i: Inputs, e: Evidence, i': Inputs, e': Evidence, evaluator: Evaluator)
    requires LeavesOpen(i', e') <==> LeavesOpen(i'.(evaluator := evaluator), e')
    ensures Raises(p, i, e, i', e') <==> Raises(p, i, e, i'.(evaluator := evaluator), e')
  {
    AnswerImproves(p, i, e, i', e', evaluator);
    RaisesExactly(p, i, e, i', e');
    RaisesExactly(p, i, e, i'.(evaluator := evaluator), e');
  }

  // ---------------------------------------------------------------- a whole receipt

  /** The evidence is read from the two receipts, so without a receipt what stood in it is missing too. */
  function EvidenceOf(i: Inputs): Evidence {
    Extract(i.admission, i.consequence)
  }

  lemma ReceiptGone(p: Platform, i: Inputs, e: Evidence, i': Inputs, e': Evidence)
    requires !i'.admission.Obj? || !i'.consequence.Obj?
    ensures Improves(p, i, e, i', e') <==> Contradicts(p, i, e) && !Contradicts(p, i', e')
  {
  }

  lemma WithoutAdmission(p: Platform, absent: Json, consequence: Json)
    requires !absent.Obj?
    ensures var e := Extract(absent, consequence);
      && !BindingMismatch(e) && !NonceMismatch(e) && !Expired(p, e) && ExecutorPermitted(e)
  {
  }

  /** Withdrawing the admission receipt raises the verdict exactly if there is a contradiction and none of it lies in the
      cryptographic evidence. */
  lemma AdmissionReceiptWithdrawn(p: Platform, i: Inputs, absent: Json)
    requires !absent.Obj?
    ensures var i' := i.(admission := absent);
      Raises(p, i, EvidenceOf(i), i', EvidenceOf(i')) <==>
        Contradicts(p, i, EvidenceOf(i)) && !CryptoInvalid(i.cryptographicEvidence)
  {
    var i' := i.(admission := absent);
    WithoutAdmission(p, absent, i.consequence);
    ReceiptGone(p, i, EvidenceOf(i), i', EvidenceOf(i'));
    RaisesExactly(p, i, EvidenceOf(i), i', EvidenceOf(i'));
  }

  predicate PermitsUndefined(list: Json) {
    list.Arr? ==> Includes(list.items, Undef)
  }

  lemma WithoutConsequence(p: Platform, admission: Json, consequence: Json, absent: Json)
    requires !absent.Obj?
    ensures var e, e' := Extract(admission, consequence), Extract(admission, absent);
      && (BindingMismatch(e') <==> IsHash(e.admissionHash))
      && !NonceMismatch(e') && !Expired(p, e')
      && (ExecutorPermitted(e') <==> PermitsUndefined(e.allowedNodes) && PermitsUndefined(e.allowedContexts))
  {
  }

  /** Withdrawing the consequence receipt raises it exactly if, besides, the admission receipt carries no hash and each
      list of permitted executors, if there is one, permits `undefined`. */
  lemma ConsequenceReceiptWithdrawn(p: Platform, i: Inputs, absent: Json)
    requires !absent.Obj?
    ensures var i', e := i.(consequence := absent), EvidenceOf(i);
      Raises(p, i, e, i', EvidenceOf(i')) <==>
        && Contradicts(p, i, e) && !CryptoInvalid(i.cryptographicEvidence)
        && !IsHash(e.admissionHash) && PermitsUndefined(e.allowedNodes) && PermitsUndefined(e.allowedContexts)
  {
    var i' := i.(consequence := absent);
    WithoutConsequence(p, i.admission, i.consequence, absent);
    ReceiptGone(p, i, EvidenceOf(i), i', EvidenceOf(i'));
    RaisesExactly(p, i, EvidenceOf(i), i', EvidenceOf(i'));
  }

  /** An admission receipt that permits no executor at all, and nothing else. */
  function PermittingNone(): Inputs {
    Inputs(Obj([Member(DECISION, Obj([Member(PERMITTED_EXECUTOR_NODES, Arr([]))]))]), Null, Null, Null, Null, NoEvaluator)
  }

  /** With it the verdict is INVALID, and without it UNRESOLVED. */
  lemma ReceiptWithdrawalCanRaise(p: Platform)
    ensures var i := PermittingNone();
      var i' := i.(admission := Null);
      && VerdictOf(Gathered(p, i, EvidenceOf(i))) == INVALID
      && VerdictOf(Gathered(p, i', EvidenceOf(i'))) == UNRESOLVED
  {
    var i := PermittingNone();
    var i' := i.(admission := Null);
    assert Get(i.admission, DECISION) == Obj([Member(PERMITTED_EXECUTOR_NODES, Arr([]))]);
    assert EvidenceOf(i).allowedNodes == Arr([]);
    InvalidExactly(p, i, EvidenceOf(i));
    AdmissionReceiptWithdrawn(p, i, Null);
    ValidExactly(p, i', EvidenceOf(i'));
  }

  // ---------------------------------------------------------------- other inputs

  lemma CryptoImproves(p: Platform, i: Inputs, e: Evidence, crypto: Json)
    ensures var i' := i.(cryptographicEvidence := crypto);
      Improves(p, i, e, i', e) <==>
        || (CryptoInvalid(i.cryptographicEvidence) && !Contradicts(p, i', e))
        || (!CryptoValid(i.cryptographicEvidence) && Closes(p, i', e))
  {
  }

  /** Replacing the cryptographic evidence raises the verdict exactly if it takes away the only contradiction or
      gives the only thing missing. */
  lemma CryptoReplaced(p: Platform, i: Inputs, e: Evidence, crypto: Json)
    ensures var i' := i.(cryptographicEvidence := crypto);
      Raises(p, i, e, i', e) <==>
        || (CryptoInvalid(i.cryptographicEvidence) && !Contradicts(p, i', e))
        || (!CryptoValid(i.cryptographicEvidence) && Closes(p, i', e))
  {
    CryptoImproves(p, i, e, crypto);
    RaisesExactly(p, i, e, i.(cryptographicEvidence := crypto), e);
  }

  /** Withdrawing it raises the verdict exactly if it was the only contradiction. */
  lemma CryptoWithdrawn(p: Platform, i: Inputs, e: Evidence, absent: Json)
    requires !absent.Obj?
    ensures var i' := i.(cryptographicEvidence := absent);
      Raises(p, i, e, i', e) <==> CryptoInvalid(i.cryptographicEvidence) && !Contradicts(p, i', e)
  {
    CryptoReplaced(p, i, e, absent);
  }

  function StatusRank(status: Json): nat {
    if status == S_VALID then 2 else if status == S_INVALID then 0 else 1
  }

  /** Cryptographic evidence in which no status is better; absent altogether only if nothing was invalid. */
  predicate WeakerCrypto(weak: Json, strong: Json) {
    && strong.Obj?
    && if weak.Obj? then
         && StatusRank(Get(weak, ADMISSION_RECEIPT)) <= StatusRank(Get(strong, ADMISSION_RECEIPT))
         && StatusRank(Get(weak, CONSEQUENCE_RECEIPT)) <= StatusRank(Get(strong, CONSEQUENCE_RECEIPT))
         && StatusRank(Get(weak, SENTINEL_ATTESTATION)) <= StatusRank(Get(strong, SENTINEL_ATTESTATION))
       else
         && StatusRank(Get(strong, ADMISSION_RECEIPT)) > 0
         && StatusRank(Get(strong, CONSEQUENCE_RECEIPT)) > 0
         && StatusRank(Get(strong, SENTINEL_ATTESTATION)) > 0
  }

  lemma WeakerCryptoStatuses(weak: Json, strong: Json)
    requires WeakerCrypto(weak, strong)
    ensures CryptoInvalid(strong) ==> CryptoInvalid(weak)
    ensures CryptoValid(weak) ==> CryptoValid(strong)
  {
  }

  /** As long as INVALID counts as the worst status, worse statuses never raise the verdict. */
  lemma WeakerCryptoNeverRaises(p: Platform, i: Inputs, e: Evidence, weak: Json)
    requires WeakerCrypto(weak, i.cryptographicEvidence)
    ensures !Raises(p, i, e, i.(cryptographicEvidence := weak), e)
  {
    WeakerCryptoStatuses(weak, i.cryptographicEvidence);
    CryptoReplaced(p, i, e, weak);
  }

  predicate StateSettled(state: Json) {
    Includes(TERMINAL_NONCE_STATES, state) && state != IN_RECOVERY
  }

  lemma NonceStateImproves(p: Platform, i: Inputs, e: Evidence, state: Json)
    ensures var i' := i.(nonceState := state);
      Improves(p, i, e, i', e) <==> !StateSettled(i.nonceState) && Closes(p, i', e)
  {
  }

  /** Replacing the nonce state raises the verdict exactly if the old state was open, the new one is settled, and
      everything else closes. */
  lemma NonceStateReplaced(p: Platform, i: Inputs, e: Evidence, state: Json)
    ensures var i' := i.(nonceState := state);
      Raises(p, i, e, i', e) <==> !StateSettled(i.nonceState) && Closes(p, i', e)
  {
    NonceStateImproves(p, i, e, state);
    RaisesExactly(p, i, e, i.(nonceState := state), e);
  }

  /** So a state that is open never raises it: a missing one, one in recovery, one that is not terminal. */
  lemma WeakerNonceStateNeverRaises(p: Platform, i: Inputs, e: Evidence, state: Json)
    requires StateSettled(state) ==> StateSettled(i.nonceState)
    ensures !Raises(p, i, e, i.(nonceState := state), e)
  {
    NonceStateReplaced(p, i, e, state);
  }

  lemma NoEvaluatorIsOpen(evaluator: Evaluator, e: Evidence)
    requires ConsequenceConformance(e, NoEvaluator).status != INDETERMINATE
    ensures ConsequenceConformance(e, evaluator) == ConsequenceConformance(e, NoEvaluator)
  {
  }

  lemma EvaluatorImproves(p: Platform, i: Inputs, e: Evidence)
    ensures !Improves(p, i, e, i.(evaluator := NoEvaluator), e)
  {
    if Closes(p, i.(evaluator := NoEvaluator), e) {
      NoEvaluatorIsOpen(i.evaluator, e);
    }
  }

  /** Withdrawing the evaluator never raises the verdict. */
  lemma EvaluatorWithdrawn(p: Platform, i: Inputs, e: Evidence)
    ensures !Raises(p, i, e, i.(evaluator := NoEvaluator), e)
  {
    EvaluatorImproves(p, i, e);
    RaisesExactly(p, i, e, i.(evaluator := NoEvaluator), e);
  }

  // ---------------------------------------------------------------- fields whose withdrawal never raises

  lemma ConsequenceHashImproves(p: Platform, i: Inputs, e: Evidence)
    ensures !Improves(p, i, e, i, e.(consequenceHash := Null))
  {
  }

  /** Withdrawing the hash of the consequence receipt never raises the verdict. */
  lemma ConsequenceHashWithdrawn(p: Platform, i: Inputs, e: Evidence)
    ensures !Raises(p, i, e, i, e.(consequenceHash := Null))
  {
    ConsequenceHashImproves(p, i, e);
    RaisesExactly(p, i, e, i, e.(consequenceHash := Null));
  }

  lemma DeclaredHashImproves(p: Platform, i: Inputs, e: Evidence)
    ensures !Improves(p, i, e, i, e.(declaredAdmissionHash := Null))
  {
  }

  /** Nor does withdrawing the admission hash that the consequence receipt declares. */
  lemma DeclaredHashWithdrawn(p: Platform, i: Inputs, e: Evidence)
    ensures !Raises(p, i, e, i, e.(declaredAdmissionHash := Null))
  {
    DeclaredHashImproves(p, i, e);
    RaisesExactly(p, i, e, i, e.(declaredAdmissionHash := Null));
  }

  lemma PreviousHashImproves(p: Platform, i: Inputs, e: Evidence)
    ensures !Improves(p, i, e, i, e.(previousReceiptHash := Null))
  {
  }

  /** Nor its link. */
  lemma PreviousHashWithdrawn(p: Platform, i: Inputs, e: Evidence)
    ensures !Raises(p, i, e, i, e.(previousReceiptHash := Null))
  {
    PreviousHashImproves(p, i, e);
    RaisesExactly(p, i, e, i, e.(previousReceiptHash := Null));
  }

  lemma StatusImproves(p: Platform, i: Inputs, e: Evidence)
    ensures !Improves(p, i, e, i, e.(executionStatus := Null))
  {
  }

  /** Nor the execution status. */
  lemma StatusWithdrawn(p: Platform, i: Inputs, e: Evidence)
    ensures !Raises(p, i, e, i, e.(executionStatus := Null))
  {
    StatusImproves(p, i, e);
    RaisesExactly(p, i, e, i, e.(executionStatus := Null));
  }

  lemma AuthorizedActionImproves(p: Platform, i: Inputs, e: Evidence)
    ensures !Improves(p, i, e, i, e.(authorizedActionHash := Null))
  {
  }

  /** Nor the authorized action. */
  lemma AuthorizedActionWithdrawn(p: Platform, i: Inputs, e: Evidence)
    ensures !Raises(p, i, e, i, e.(authorizedActionHash := Null))
  {
    AuthorizedActionImproves(p, i, e);
    RaisesExactly(p, i, e, i, e.(authorizedActionHash := Null));
  }

  lemma ProfileImproves(p: Platform, i: Inputs, e: Evidence)
    ensures !Improves(p, i, e, i, e.(profile := Undef))
  {
  }

  /** Nor the canonicalization profile. */
  lemma ProfileWithdrawn(p: Platform, i: Inputs, e: Evidence)
    ensures !Raises(p, i, e, i, e.(profile := Undef))
  {
    ProfileImproves(p, i, e);
    RaisesExactly(p, i, e, i, e.(profile := Undef));
  }

  lemma ProfileVersionImproves(p: Platform, i: Inputs, e: Evidence)
    ensures !Improves(p, i, e, i, e.(profileVersion := Undef))
  {
  }

  /** Nor its version. */
  lemma ProfileVersionWithdrawn(p: Platform, i: Inputs, e: Evidence)
    ensures !Raises(p, i, e, i, e.(profileVersion := Undef))
  {
    ProfileVersionImproves(p, i, e);
    RaisesExactly(p, i, e, i, e.(profileVersion := Undef));
  }

  lemma ResidueImproves(p: Platform, i: Inputs, e: Evidence)
    ensures !Improves(p, i, e, i, e.(hasResidue := false))
  {
  }

  /** Nor residue of the execution, which no rule judges. */
  lemma ResidueWithdrawn(p: Platform, i: Inputs, e: Evidence)
    ensures !Raises(p, i, e, i, e.(hasResidue := false))
  {
    ResidueImproves(p, i, e);
    RaisesExactly(p, i, e, i, e.(hasResidue := false));
  }

  // ---------------------------------------------------------------- fields whose withdrawal can raise

  lemma AdmissionHashImproves(p: Platform, i: Inputs, e: Evidence)
    ensures var e' := e.(admissionHash := Null);
      Improves(p, i, e, i, e') <==> BindingMismatch(e) && !Contradicts(p, i, e')
  {
  }

  /** Withdrawing the admission hash raises the verdict exactly if its mismatch was the only contradiction. */
  lemma AdmissionHashWithdrawn(p: Platform, i: Inputs, e: Evidence)
    ensures var e' := e.(admissionHash := Null);
      Raises(p, i, e, i, e') <==> BindingMismatch(e) && !Contradicts(p, i, e')
  {
    AdmissionHashImproves(p, i, e);
    RaisesExactly(p, i, e, i, e.(admissionHash := Null));
  }

  lemma AdmissionNonceImproves(p: Platform, i: Inputs, e: Evidence)
    ensures var e' := e.(admissionNonce := Null);
      Improves(p, i, e, i, e') <==> NonceMismatch(e) && !Contradicts(p, i, e')
  {
  }

  /** Withdrawing a nonce raises it exactly if the mismatch of the two nonces was. */
  lemma AdmissionNonceWithdrawn(p: Platform, i: Inputs, e: Evidence)
    ensures var e' := e.(admissionNonce := Null);
      Raises(p, i, e, i, e') <==> NonceMismatch(e) && !Contradicts(p, i, e')
  {
    AdmissionNonceImproves(p, i, e);
    RaisesExactly(p, i, e, i, e.(admissionNonce := Null));
  }

  lemma ConsequenceNonceImproves(p: Platform, i: Inputs, e: Evidence)
    ensures var e' := e.(consequenceNonce := Null);
      Improves(p, i, e, i, e') <==> NonceMismatch(e) && !Contradicts(p, i, e')
  {
  }

  /** The same of the other nonce. */
  lemma ConsequenceNonceWithdrawn(p: Platform, i: Inputs, e: Evidence)
    ensures var e' := e.(consequenceNonce := Null);
      Raises(p, i, e, i, e') <==> NonceMismatch(e) && !Contradicts(p, i, e')
  {
    ConsequenceNonceImproves(p, i, e);
    RaisesExactly(p, i, e, i, e.(consequenceNonce := Null));
  }

  lemma ExpiryImproves(p: Platform, i: Inputs, e: Evidence)
    ensures var e' := e.(expiresAt := Null);
      Improves(p, i, e, i, e') <==>
        || (Expired(p, e) && !Contradicts(p, i, e'))
        || (Truthy(e.expiresAt) && !Truthy(e.consequenceCreatedAt) && Closes(p, i, e'))
  {
  }

  /** Withdrawing the expiry raises the verdict exactly if it was the only contradiction that it had passed, or if the
      consequence carries no time and everything else closes. */
  lemma ExpiryWithdrawn(p: Platform, i: Inputs, e: Evidence)
    ensures var e' := e.(expiresAt := Null);
      Raises(p, i, e, i, e') <==>
        || (Expired(p, e) && !Contradicts(p, i, e'))
        || (Truthy(e.expiresAt) && !Truthy(e.consequenceCreatedAt) && Closes(p, i, e'))
  {
    ExpiryImproves(p, i, e);
    RaisesExactly(p, i, e, i, e.(expiresAt := Null));
  }

  lemma ConsequenceTimeImproves(p: Platform, i: Inputs, e: Evidence)
    ensures var e' := e.(consequenceCreatedAt := Null);
      Improves(p, i, e, i, e') <==>
        || (Expired(p, e) && !Contradicts(p, i, e'))
        || (Truthy(e.consequenceCreatedAt) && !Truthy(e.expiresAt) && Closes(p, i, e'))
  {
  }

  /** Withdrawing the time of the consequence, exactly if its lateness was, or if there is no expiry and everything
      else closes. */
  lemma ConsequenceTimeWithdrawn(p: Platform, i: Inputs, e: Evidence)
    ensures var e' := e.(consequenceCreatedAt := Null);
      Raises(p, i, e, i, e') <==>
        || (Expired(p, e) && !Contradicts(p, i, e'))
        || (Truthy(e.consequenceCreatedAt) && !Truthy(e.expiresAt) && Closes(p, i, e'))
  {
    ConsequenceTimeImproves(p, i, e);
    RaisesExactly(p, i, e, i, e.(consequenceCreatedAt := Null));
  }

  predicate NodeForbidden(e: Evidence) {
    e.allowedNodes.Arr? && !Includes(e.allowedNodes.items, e.actualNode)
  }

  predicate ContextForbidden(e: Evidence) {
    e.allowedContexts.Arr? && !Includes(e.allowedContexts.items, e.actualContext)
  }

  lemma AllowedNodesImproves(p: Platform, i: Inputs, e: Evidence)
    ensures var e' := e.(allowedNodes := Undef);
      Improves(p, i, e, i, e') <==> NodeForbidden(e) && !Contradicts(p, i, e')
  {
  }

  /** Withdrawing the list of permitted nodes raises the verdict exactly if the node's absence from it was the only
      contradiction. */
  lemma AllowedNodesWithdrawn(p: Platform, i: Inputs, e: Evidence)
    ensures var e' := e.(allowedNodes := Undef);
      Raises(p, i, e, i, e') <==> NodeForbidden(e) && !Contradicts(p, i, e')
  {
    AllowedNodesImproves(p, i, e);
    RaisesExactly(p, i, e, i, e.(allowedNodes := Undef));
  }

  lemma AllowedContextsImproves(p: Platform, i: Inputs, e: Evidence)
    ensures var e' := e.(allowedContexts := Undef);
      Improves(p, i, e, i, e') <==> ContextForbidden(e) && !Contradicts(p, i, e')
  {
  }

  /** The same of the list of permitted contexts. */
  lemma AllowedContextsWithdrawn(p: Platform, i: Inputs, e: Evidence)
    ensures var e' := e.(allowedContexts := Undef);
      Raises(p, i, e, i, e') <==> ContextForbidden(e) && !Contradicts(p, i, e')
  {
    AllowedContextsImproves(p, i, e);
    RaisesExactly(p, i, e, i, e.(allowedContexts := Undef));
  }

  lemma NodeImproves(p: Platform, i: Inputs, e: Evidence)
    ensures var e' := e.(actualNode := Undef);
      Improves(p, i, e, i, e') <==>
        NodeForbidden(e) && Includes(e.allowedNodes.items, Undef) && !Contradicts(p, i, e')
  {
  }

  /** Withdrawing the executor's node raises the verdict exactly if the list permits `undefined` and the absence of the
      node named was the only contradiction; a list without `undefined` makes it impossible. */
  lemma NodeWithdrawn(p: Platform, i: Inputs, e: Evidence)
    ensures var e' := e.(actualNode := Undef);
      Raises(p, i, e, i, e') <==>
        NodeForbidden(e) && Includes(e.allowedNodes.items, Undef) && !Contradicts(p, i, e')
  {
    NodeImproves(p, i, e);
    RaisesExactly(p, i, e, i, e.(actualNode := Undef));
  }

  lemma ContextImproves(p: Platform, i: Inputs, e: Evidence)
    ensures var e' := e.(actualContext := Undef);
      Improves(p, i, e, i, e') <==>
        ContextForbidden(e) && Includes(e.allowedContexts.items, Undef) && !Contradicts(p, i, e')
  {
  }

  /** The same of the execution context. */
  lemma ContextWithdrawn(p: Platform, i: Inputs, e: Evidence)
    ensures var e' := e.(actualContext := Undef);
      Raises(p, i, e, i, e') <==>
        ContextForbidden(e) && Includes(e.allowedContexts.items, Undef) && !Contradicts(p, i, e')
  {
    ContextImproves(p, i, e);
    RaisesExactly(p, i, e, i, e.(actualContext := Undef));
  }

  lemma ActualActionImproves(p: Platform, i: Inputs, e: Evidence)
    ensures var e' := e.(actualActionHash := Null);
      Improves(p, i, e, i, e') <==>
        && ActionConformance(e) == INDETERMINATE && Includes(NON_EXECUTION_STATUSES, e.executionStatus)
        && Closes(p, i, e')
  {
  }

  /** Withdrawing the actual action raises the verdict exactly if its conformance was open, the status says that nothing
      was executed, and everything else closes. */
  lemma ActualActionWithdrawn(p: Platform, i: Inputs, e: Evidence)
    ensures var e' := e.(actualActionHash := Null);
      Raises(p, i, e, i, e') <==>
        && ActionConformance(e) == INDETERMINATE && Includes(NON_EXECUTION_STATUSES, e.executionStatus)
        && Closes(p, i, e')
  {
    ActualActionImproves(p, i, e);
    RaisesExactly(p, i, e, i, e.(actualActionHash := Null));
  }

  lemma Unobserved(evaluator: Evaluator, e: Evidence)
    ensures ConsequenceConformance(e.(observedConsequenceHash := Null), evaluator).status == NO_CONSEQUENCE
  {
  }

  lemma ConsequenceImproves(p: Platform, i: Inputs, e: Evidence)
    ensures var e' := e.(observedConsequenceHash := Null);
      Improves(p, i, e, i, e') <==>
        ConsequenceConformance(e, i.evaluator).status == INDETERMINATE && Closes(p, i, e')
  {
    Unobserved(i.evaluator, e);
  }

  /** Withdrawing an observed consequence raises the verdict exactly if it was open and everything else closes. */
  lemma ConsequenceWithdrawn(p: Platform, i: Inputs, e: Evidence)
    ensures var e' := e.(observedConsequenceHash := Null);
      Raises(p, i, e, i, e') <==>
        ConsequenceConformance(e, i.evaluator).status == INDETERMINATE && Closes(p, i, e')
  {
    ConsequenceImproves(p, i, e);
    RaisesExactly(p, i, e, i, e.(observedConsequenceHash := Null));
  }

  const NO_EVALUATION: Json := Obj([Member(MODE, M_NONE)])

  lemma Unevaluated(evaluator: Evaluator, e: Evidence)
    ensures ConsequenceConformance(e.(evaluation := NO_EVALUATION), evaluator).status != INDETERMINATE
  {
  }

  lemma EvaluationImproves(p: Platform, i: Inputs, e: Evidence)
    ensures var e' := e.(evaluation := NO_EVALUATION);
      Improves(p, i, e, i, e') <==>
        ConsequenceConformance(e, i.evaluator).status == INDETERMINATE && Closes(p, i, e')
  {
    Unevaluated(i.evaluator, e);
  }

  /** And so does withdrawing the evaluation that was asked for. */
  lemma EvaluationWithdrawn(p: Platform, i: Inputs, e: Evidence)
    ensures var e' := e.(evaluation := NO_EVALUATION);
      Raises(p, i, e, i, e') <==>
        ConsequenceConformance(e, i.evaluator).status == INDETERMINATE && Closes(p, i, e')
  {
    EvaluationImproves(p, i, e);
    RaisesExactly(p, i, e, i, e.(evaluation := NO_EVALUATION));
  }
}
