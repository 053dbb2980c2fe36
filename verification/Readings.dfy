/** What an assessment reads in the two receipts, member by member, and what follows for its verdict and reasons. */
module Readings {
  import opened Unicode
  import opened Values
  import opened Platform
  import opened Receipts
  import opened Gate
  import opened Seal
  import opened Coherence

  // ---------------------------------------------------------------- the facts

  /** The first of the values that is truthy; null if none is. */
  function FirstTruthy(vs: seq<Json>): (v: Json)
    ensures forall k | 0 <= k < |vs| && Truthy(vs[k]) && (forall j | 0 <= j < k :: !Truthy(vs[j])) :: v == vs[k]
    ensures (forall k | 0 <= k < |vs| :: !Truthy(vs[k])) ==> v == Null
  {
    if vs == [] then Null
    else if Truthy(vs[0]) then vs[0]
    else
      assert forall k | 1 <= k < |vs| :: vs[k] == vs[1..][k - 1];
      FirstTruthy(vs[1..])
  }

  lemma FirstOfOne(a: Json)
    ensures FirstTruthy([a]) == Or(a, Null)
  {
  }

  lemma FirstOfTwo(a: Json, b: Json)
    ensures FirstTruthy([a, b]) == Or(a, Or(b, Null))
  {
    assert [a, b][0] == a && [a, b][1] == b;
  }

  lemma FirstOfThree(a: Json, b: Json, c: Json)
    ensures FirstTruthy([a, b, c]) == Or(a, Or(b, Or(c, Null)))
  {
    assert [a, b, c][0] == a && [a, b, c][1] == b && [a, b, c][2] == c;
  }

  function HashIn(receipt: Json): Json {
    FirstTruthy([Get(Get(receipt, CHAIN), RECEIPT_HASH), Get(receipt, RECEIPT_HASH)])
  }

  function LinkIn(receipt: Json): Json {
    FirstTruthy([Get(Get(receipt, CHAIN), PREVIOUS_RECEIPT_HASH), Get(receipt, PREVIOUS_RECEIPT_HASH)])
  }

  function NonceIn(receipt: Json): Json {
    FirstTruthy([Get(receipt, AUTHORIZATION_NONCE), Get(Get(receipt, APPROVAL), NONCE)])
  }

  function AuthorizedActionIn(admission: Json): Json {
    FirstTruthy([Get(Get(admission, DECISION), AUTHORIZED_ACTION_HASH), Get(admission, AUTHORIZED_ACTION_HASH),
                 Get(admission, EXECUTION_HASH)])
  }

  function ActualActionIn(consequence: Json): Json {
    FirstTruthy([Get(Get(consequence, EXECUTION), ACTUAL_ACTION_HASH),
                 Get(Get(consequence, EXECUTION), ATTEMPTED_ACTION_HASH), Get(consequence, ACTUAL_ACTION_HASH)])
  }

  function ObservedIn(consequence: Json): Json {
    FirstTruthy([Get(Get(consequence, EXECUTION), CONSEQUENCE_HASH), Get(consequence, OBSERVED_CONSEQUENCE_HASH)])
  }

  function ExpiryIn(admission: Json): Json {
    FirstTruthy([Get(Get(admission, DECISION), AUTHORIZATION_EXPIRES_AT)])
  }

  function TimeIn(consequence: Json): Json {
    FirstTruthy([Get(consequence, CREATED_AT), Get(consequence, TIMESTAMP)])
  }

  function StatusIn(consequence: Json): Json {
    FirstTruthy([Get(Get(consequence, EXECUTION), STATUS)])
  }

  /** The evaluation asked for, and its mode: NONE if there is none. */
  function EvaluationIn(admission: Json): Json {
    FirstTruthy([Get(Get(admission, DECISION), CONSEQUENCE_EVALUATION), Get(admission, CONSEQUENCE_EVALUATION)])
  }

  function ModeIn(admission: Json): Json {
    var mode := Get(EvaluationIn(admission), MODE);
    if Truthy(mode) then mode else Str(U("NONE"))
  }

  function ContractIn(admission: Json): Json {
    FirstTruthy([Get(EvaluationIn(admission), CONTRACT_HASH)])
  }

  function ExpectedIn(admission: Json): Json {
    FirstTruthy([Get(EvaluationIn(admission), CONTRACT_HASH), Get(EvaluationIn(admission), EXPECTED_HASH)])
  }

  predicate ResidueIn(consequence: Json) {
    || Truthy(Get(Get(consequence, EXECUTION), ERROR_HASH))
    || Truthy(Get(Get(consequence, EXECUTION), RESIDUE_HASH))
    || Truthy(Get(consequence, RESIDUE_HASH))
  }

  /** Which receipt each fact is read from, and where. */
  predicate ReadFrom(e: Evidence, admission: Json, consequence: Json) {
    && e.admissionHash == HashIn(admission)
    && e.consequenceHash == HashIn(consequence)
    && e.executionStatus == StatusIn(consequence)
    && e.admissionNonce == NonceIn(admission)
    && e.consequenceNonce == NonceIn(consequence)
    && e.authorizedActionHash == AuthorizedActionIn(admission)
    && e.actualActionHash == ActualActionIn(consequence)
    && e.observedConsequenceHash == ObservedIn(consequence)
    && EvaluationRead(e.evaluation, admission)
    && e.declaredAdmissionHash == FirstTruthy([Get(consequence, ADMISSION_RECEIPT_HASH)])
    && e.previousReceiptHash == LinkIn(consequence)
    && e.expiresAt == ExpiryIn(admission)
    && e.consequenceCreatedAt == TimeIn(consequence)
    && e.allowedNodes == Get(Get(admission, DECISION), PERMITTED_EXECUTOR_NODES)
    && e.allowedContexts == Get(Get(admission, DECISION), PERMITTED_EXECUTION_CONTEXTS)
    && e.actualNode == Get(Get(consequence, EXECUTOR), NODE_ID)
    && e.actualContext == Get(Get(consequence, EXECUTOR), EXECUTION_CONTEXT)
    && e.profile == Get(Get(consequence, CANONICALIZATION), PROFILE)
    && e.profileVersion == Get(Get(consequence, CANONICALIZATION), PROFILE_VERSION)
    && e.hasResidue == ResidueIn(consequence)
  }

  /** The evaluation is the one found, or asks for nothing if none is. */
  predicate EvaluationRead(evaluation: Json, admission: Json) {
    if EvaluationIn(admission).Null? then evaluation == Obj([Member(MODE, Str(U("NONE")))])
    else evaluation == EvaluationIn(admission)
  }

  lemma HashesRead(r: Json)
    ensures ReceiptHashOf(r) == HashIn(r) && PreviousReceiptHashOf(r) == LinkIn(r)
    ensures AuthorizationNonceOf(r) == NonceIn(r)
  {
    FirstOfTwo(Get(Get(r, CHAIN), RECEIPT_HASH), Get(r, RECEIPT_HASH));
    FirstOfTwo(Get(Get(r, CHAIN), PREVIOUS_RECEIPT_HASH), Get(r, PREVIOUS_RECEIPT_HASH));
    FirstOfTwo(Get(r, AUTHORIZATION_NONCE), Get(Get(r, APPROVAL), NONCE));
  }

  lemma AdmissionRead(a: Json)
    ensures AuthorizedActionHashOf(a) == AuthorizedActionIn(a)
    ensures EvaluationRead(EvaluationOf(a), a)
    ensures Or(Path(a, DECISION, AUTHORIZATION_EXPIRES_AT), Null) == ExpiryIn(a)
  {
    FirstOfThree(Get(Get(a, DECISION), AUTHORIZED_ACTION_HASH), Get(a, AUTHORIZED_ACTION_HASH), Get(a, EXECUTION_HASH));
    FirstOfTwo(Get(Get(a, DECISION), CONSEQUENCE_EVALUATION), Get(a, CONSEQUENCE_EVALUATION));
    FirstOfOne(Get(Get(a, DECISION), AUTHORIZATION_EXPIRES_AT));
  }

  lemma ConsequenceRead(c: Json)
    ensures ActualActionHashOf(c) == ActualActionIn(c) && ObservedConsequenceHashOf(c) == ObservedIn(c)
    ensures Or(Path(c, EXECUTION, STATUS), Null) == StatusIn(c)
    ensures Or(Get(c, CREATED_AT), Or(Get(c, TIMESTAMP), Null)) == TimeIn(c)
    ensures Or(Get(c, ADMISSION_RECEIPT_HASH), Null) == FirstTruthy([Get(c, ADMISSION_RECEIPT_HASH)])
  {
    FirstOfThree(Get(Get(c, EXECUTION), ACTUAL_ACTION_HASH), Get(Get(c, EXECUTION), ATTEMPTED_ACTION_HASH),
                 Get(c, ACTUAL_ACTION_HASH));
    FirstOfTwo(Get(Get(c, EXECUTION), CONSEQUENCE_HASH), Get(c, OBSERVED_CONSEQUENCE_HASH));
    FirstOfOne(Get(Get(c, EXECUTION), STATUS));
    FirstOfTwo(Get(c, CREATED_AT), Get(c, TIMESTAMP));
    FirstOfOne(Get(c, ADMISSION_RECEIPT_HASH));
  }

  /** Every fact is the first truthy member of those listed for it, in the receipt it belongs to. */
  lemma ExtractReads(admission: Json, consequence: Json)
    ensures ReadFrom(Extract(admission, consequence), admission, consequence)
  {
    HashesRead(admission);
    HashesRead(consequence);
    AdmissionRead(admission);
    ConsequenceRead(consequence);
  }

  // ---------------------------------------------------------------- conformance, status by status

  predicate IsScalar(v: Json) { !v.Arr? && !v.Obj? }

  predicate Blocked(status: Json) {
    || status == Str(U("BLOCKED_BEFORE_EXECUTION"))
    || status == Str(U("BLOCKED_ACTION_MISMATCH"))
    || status == Str(U("BLOCKED_POLICY_OR_AUTHORITY"))
  }

  lemma BlockedStatuses(status: Json)
    ensures Includes(NON_EXECUTION_STATUSES, status) <==> Blocked(status)
  {
    var ss := NON_EXECUTION_STATUSES;
    assert StrictEq(ss[0], status) || StrictEq(ss[1], status) || StrictEq(ss[2], status) <==> Blocked(status);
  }

  /** What the status of an action says. */
  predicate ActionIs(action: Conformance, admission: Json, consequence: Json) {
    var authorized, actual := AuthorizedActionIn(admission), ActualActionIn(consequence);
    var same := authorized == actual && IsScalar(actual);
    && (action == NOT_EXECUTED <==> Blocked(StatusIn(consequence)) && actual.Null?)
    && (action == MATCH <==> !actual.Null? && same)
    && (action == MISMATCH <==> !actual.Null? && !authorized.Null? && !same)
    && (action == INDETERMINATE <==>
          if actual.Null? then !Blocked(StatusIn(consequence)) else authorized.Null?)
  }

  /** The action of the two receipts: not executed, the same, another, or open. */
  lemma ActionExactly(admission: Json, consequence: Json)
    ensures ActionIs(ActionConformance(Extract(admission, consequence)), admission, consequence)
  {
    ExtractReads(admission, consequence);
    BlockedStatuses(StatusIn(consequence));
  }

  /** The evaluator's usable answer is this one. */
  predicate Answers(evaluator: Evaluator, status: Text) {
    evaluator.Evaluator? && evaluator.answer.Answer? && evaluator.answer.status == Str(status)
  }

  /** What the status of an observed consequence says. */
  predicate OutcomeIs(status: Conformance, observed: Json, evaluator: Evaluator, mode: Json, expected: Json) {
    var exact, contract := mode == Str(U("EXACT_HASH")), mode == Str(U("CONTRACT"));
    var same := expected == observed;
    && (status == NO_CONSEQUENCE <==> observed.Null?)
    && (status == NOT_EVALUATED <==> !observed.Null? && mode == Str(U("NONE")))
    && (status == MATCH <==>
          !observed.Null? && ((exact && IsHash(expected) && same) || (contract && Answers(evaluator, U("MATCH")))))
    && (status == MISMATCH <==>
          !observed.Null? && ((exact && IsHash(expected) && !same) || (contract && Answers(evaluator, U("MISMATCH")))))
    && status != NOT_EXECUTED
  }

  /** The reason listed for a consequence that is left open. */
  function OpenReason(evaluator: Evaluator, mode: Json): Code {
    if mode == Str(U("EXACT_HASH")) then AUTHORIZED_CONSEQUENCE_HASH_MISSING
    else if mode != Str(U("CONTRACT")) then UNSUPPORTED_CONSEQUENCE_EVALUATION_MODE
    else if evaluator.NoEvaluator? then CONSEQUENCE_EVALUATOR_UNAVAILABLE
    else if !Answers(evaluator, U("INDETERMINATE")) then CONSEQUENCE_EVALUATOR_INVALID_RESULT
    else if evaluator.answer.reason == [] then CONSEQUENCE_CONFORMANCE_INDETERMINATE
    else evaluator.answer.reason
  }

  lemma ModesDiffer()
    ensures Str(U("NONE")) != Str(U("EXACT_HASH")) && Str(U("NONE")) != Str(U("CONTRACT"))
    ensures Str(U("EXACT_HASH")) != Str(U("CONTRACT"))
    ensures U("MATCH") != U("MISMATCH") && U("MATCH") != U("INDETERMINATE") && U("MISMATCH") != U("INDETERMINATE")
  {
    assert |U("INDETERMINATE")| == 13;
    assert |U("NONE")| == 4 && |U("EXACT_HASH")| == 10 && |U("CONTRACT")| == 8;
    assert |U("MATCH")| == 5 && |U("MISMATCH")| == 8;
  }

  lemma OutcomeOfEvidence(e: Evidence, evaluator: Evaluator, mode: Json, expected: Json)
    requires mode == ModeOf(e)
    requires expected == Or(Get(e.evaluation, CONTRACT_HASH), Or(Get(e.evaluation, EXPECTED_HASH), Null))
    ensures OutcomeIs(ConsequenceConformance(e, evaluator).status, e.observedConsequenceHash, evaluator, mode, expected)
    ensures ConsequenceConformance(e, evaluator).status == INDETERMINATE ==>
      OutcomeReason(ConsequenceConformance(e, evaluator)) == OpenReason(evaluator, mode)
  {
    ModesDiffer();
    if evaluator.Evaluator? && evaluator.answer.Answer? {
      StatusesRead(evaluator.answer.status);
    }
  }

  lemma StatusesRead(status: Json)
    ensures StatusOf(status) == Some(MATCH) <==> status == Str(U("MATCH"))
    ensures StatusOf(status) == Some(MISMATCH) <==> status == Str(U("MISMATCH"))
    ensures StatusOf(status) == Some(INDETERMINATE) <==> status == Str(U("INDETERMINATE"))
    ensures StatusOf(status).Some? ==> StatusOf(status).value in {MATCH, MISMATCH, INDETERMINATE}
  {
    assert |U("MATCH")| == 5 && |U("MISMATCH")| == 8 && |U("INDETERMINATE")| == 13;
  }

  lemma ModeRead(admission: Json)
    ensures var evaluation := EvaluationOf(admission);
      && Or(Get(evaluation, MODE), M_NONE) == ModeIn(admission)
      && Or(Get(evaluation, CONTRACT_HASH), Or(Get(evaluation, EXPECTED_HASH), Null)) == ExpectedIn(admission)
  {
    var found := EvaluationIn(admission);
    AdmissionRead(admission);
    FirstOfTwo(Get(found, CONTRACT_HASH), Get(found, EXPECTED_HASH));
    if found.Null? {
      var m := Member(MODE, Str(U("NONE")));
      assert |MODE| == 4 && |CONTRACT_HASH| == 13 && |EXPECTED_HASH| == 13;
      LookupCons(m, [], MODE);
      assert [m] + [] == [m];
      LookupCons(m, [], CONTRACT_HASH);
      LookupCons(m, [], EXPECTED_HASH);
    }
  }

  /** The consequence of the two receipts, status by status; it is open in all other cases. */
  lemma OutcomeExactly(admission: Json, consequence: Json, evaluator: Evaluator)
    ensures var outcome := ConsequenceConformance(Extract(admission, consequence), evaluator);
      && OutcomeIs(outcome.status, ObservedIn(consequence), evaluator, ModeIn(admission), ExpectedIn(admission))
      && (outcome.status == INDETERMINATE ==> OutcomeReason(outcome) == OpenReason(evaluator, ModeIn(admission)))
  {
    ExtractReads(admission, consequence);
    ModeRead(admission);
    OutcomeOfEvidence(Extract(admission, consequence), evaluator, ModeIn(admission), ExpectedIn(admission));
  }

  // ---------------------------------------------------------------- when the two receipts close

  /** The consequence receipt names the hash of the admission receipt twice. */
  predicate ReceiptsLink(a: Json, c: Json) {
    && a.Obj? && c.Obj? && IsHash(HashIn(a)) && IsHash(HashIn(c))
    && Get(c, ADMISSION_RECEIPT_HASH) == HashIn(a) && LinkIn(c) == HashIn(a)
  }

  predicate StatusesClose(crypto: Json) {
    && Get(crypto, ADMISSION_RECEIPT) == Str(U("VALID"))
    && Get(crypto, CONSEQUENCE_RECEIPT) == Str(U("VALID"))
    && Get(crypto, SENTINEL_ATTESTATION) == Str(U("VALID"))
  }

  /** One nonce, and it is spent. */
  predicate NoncesClose(a: Json, c: Json, state: Json) {
    && !NonceIn(a).Null? && NonceIn(a) == NonceIn(c) && IsScalar(NonceIn(a))
    && (|| state == Str(U("CONSUMED")) || state == Str(U("REVOKED"))
        || state == Str(U("EXPIRED")) || state == Str(U("ABORTED_BEFORE_RELEASE")))
  }

  predicate LaterThan(p: Platform, time: Json, limit: Json) {
    p.dateParse(time).Some? && p.dateParse(limit).Some? && p.dateParse(limit).value < p.dateParse(time).value
  }

  /** Both receipts carry a time, and the second is not past the expiry; or neither does. */
  predicate TimesClose(p: Platform, a: Json, c: Json) {
    (ExpiryIn(a).Null? <==> TimeIn(c).Null?) && (!TimeIn(c).Null? ==> !LaterThan(p, TimeIn(c), ExpiryIn(a)))
  }

  predicate Permits(list: Json, v: Json) {
    list.Arr? ==> v in list.items && IsScalar(v)
  }

  predicate ExecutorCloses(a: Json, c: Json) {
    && Permits(Get(Get(a, DECISION), PERMITTED_EXECUTOR_NODES), Get(Get(c, EXECUTOR), NODE_ID))
    && Permits(Get(Get(a, DECISION), PERMITTED_EXECUTION_CONTEXTS), Get(Get(c, EXECUTOR), EXECUTION_CONTEXT))
  }

  predicate ProfileCloses(c: Json) {
    && Get(Get(c, CANONICALIZATION), PROFILE) == Str(U("RIO-CANON"))
    && Get(Get(c, CANONICALIZATION), PROFILE_VERSION) == Str(U("1.1.0"))
  }

  predicate ActionCloses(a: Json, c: Json) {
    if ActualActionIn(c).Null? then Blocked(StatusIn(c)) else !AuthorizedActionIn(a).Null?
  }

  predicate OutcomeCloses(a: Json, c: Json, evaluator: Evaluator) {
    || ObservedIn(c).Null?
    || ModeIn(a) == Str(U("NONE"))
    || (ModeIn(a) == Str(U("EXACT_HASH")) && IsHash(ExpectedIn(a)))
    || (ModeIn(a) == Str(U("CONTRACT")) && (Answers(evaluator, U("MATCH")) || Answers(evaluator, U("MISMATCH"))))
  }

  /** All of it, in terms of the receipts' own members. */
  predicate ReceiptsClose(p: Platform, i: Inputs) {
    var a, c := i.admission, i.consequence;
    && ReceiptsLink(a, c)
    && StatusesClose(i.cryptographicEvidence)
    && NoncesClose(a, c, i.nonceState)
    && TimesClose(p, a, c)
    && ExecutorCloses(a, c)
    && ProfileCloses(c)
    && ActionCloses(a, c)
    && OutcomeCloses(a, c, i.evaluator)
  }

  lemma FirstTruthyOrNull(vs: seq<Json>)
    ensures Truthy(FirstTruthy(vs)) || FirstTruthy(vs).Null?
  {
  }

  lemma LinksRead(a: Json, c: Json, i: Inputs)
    requires i.admission == a && i.consequence == c
    ensures Bindings(i, Extract(a, c)) <==> ReceiptsLink(a, c)
  {
    ExtractReads(a, c);
    if IsHash(HashIn(a)) {
      DeclaredIs(Get(c, ADMISSION_RECEIPT_HASH), HashIn(a));
    }
  }

  lemma StatusesReadAll(crypto: Json)
    ensures CryptoValid(crypto) <==> StatusesClose(crypto)
  {
  }

  lemma TerminalStates(state: Json)
    ensures Includes(TERMINAL_NONCE_STATES, state) && state != IN_RECOVERY <==>
      || state == Str(U("CONSUMED")) || state == Str(U("REVOKED"))
      || state == Str(U("EXPIRED")) || state == Str(U("ABORTED_BEFORE_RELEASE"))
  {
    var ss := TERMINAL_NONCE_STATES;
    assert |U("CONSUMED")| == 8 && |U("REVOKED")| == 7 && |U("EXPIRED")| == 7 && |U("ABORTED_BEFORE_RELEASE")| == 22
      && |U("RECOVERY_REQUIRED")| == 17;
    assert Includes(ss, state) <==>
      StrictEq(ss[0], state) || StrictEq(ss[1], state) || StrictEq(ss[2], state) || StrictEq(ss[3], state)
      || StrictEq(ss[4], state);
  }

  lemma NoncesRead(a: Json, c: Json, i: Inputs)
    requires i.admission == a && i.consequence == c
    ensures NonceSettled(i, Extract(a, c)) <==> NoncesClose(a, c, i.nonceState)
  {
    ExtractReads(a, c);
    FirstTruthyOrNull([Get(a, AUTHORIZATION_NONCE), Get(Get(a, APPROVAL), NONCE)]);
    TerminalStates(i.nonceState);
  }

  lemma TimesRead(p: Platform, a: Json, c: Json)
    ensures InTime(p, Extract(a, c)) <==> TimesClose(p, a, c)
  {
    ExtractReads(a, c);
    FirstTruthyOrNull([Get(Get(a, DECISION), AUTHORIZATION_EXPIRES_AT)]);
    FirstTruthyOrNull([Get(c, CREATED_AT), Get(c, TIMESTAMP)]);
  }

  lemma IncludesExactly(vs: seq<Json>, v: Json)
    ensures Includes(vs, v) <==> v in vs && IsScalar(v)
  {
    if v in vs && IsScalar(v) {
      var k :| 0 <= k < |vs| && vs[k] == v;
      assert StrictEq(vs[k], v);
    }
  }

  lemma PermitsExactly(list: Json, v: Json)
    ensures Permits(list, v) <==> (list.Arr? ==> Includes(list.items, v))
  {
    if list.Arr? {
      IncludesExactly(list.items, v);
    }
  }

  lemma ExecutorsRead(a: Json, c: Json)
    ensures ExecutorPermitted(Extract(a, c)) <==> ExecutorCloses(a, c)
  {
    var e := Extract(a, c);
    ExtractReads(a, c);
    PermitsExactly(e.allowedNodes, e.actualNode);
    PermitsExactly(e.allowedContexts, e.actualContext);
  }

  lemma OutcomeClosesExactly(a: Json, c: Json, evaluator: Evaluator)
    ensures ConsequenceConformance(Extract(a, c), evaluator).status != INDETERMINATE <==> OutcomeCloses(a, c, evaluator)
  {
    OutcomeExactly(a, c, evaluator);
    StatusKinds(ConsequenceConformance(Extract(a, c), evaluator).status);
  }

  lemma StatusKinds(status: Conformance)
    ensures status in {MATCH, MISMATCH, NOT_EXECUTED, NO_CONSEQUENCE, NOT_EVALUATED, INDETERMINATE}
  {
  }

  /** The evidence read from two receipts closes exactly if their members do. */
  lemma ClosesExactly(p: Platform, i: Inputs)
    ensures Closes(p, i, Extract(i.admission, i.consequence)) <==> ReceiptsClose(p, i)
  {
    var a, c := i.admission, i.consequence;
    LinksRead(a, c, i);
    StatusesReadAll(i.cryptographicEvidence);
    NoncesRead(a, c, i);
    TimesRead(p, a, c);
    ExecutorsRead(a, c);
    ExtractReads(a, c);
    ActionExactly(a, c);
    OutcomeClosesExactly(a, c, i.evaluator);
  }

  // ---------------------------------------------------------------- which reasons are listed

  /** The code stands for a contradiction that is there. */
  predicate InvalidFor(p: Platform, i: Inputs, code: Code) {
    var a, c, crypto := i.admission, i.consequence, i.cryptographicEvidence;
    || (code == ADMISSION_RECEIPT_CRYPTO_INVALID && Get(crypto, ADMISSION_RECEIPT) == Str(U("INVALID")))
    || (code == CONSEQUENCE_RECEIPT_CRYPTO_INVALID && Get(crypto, CONSEQUENCE_RECEIPT) == Str(U("INVALID")))
    || (code == SENTINEL_ATTESTATION_INVALID && Get(crypto, SENTINEL_ATTESTATION) == Str(U("INVALID")))
    || LinkInvalid(a, c, code)
    || (code == AUTHORIZATION_NONCE_MISMATCH
        && !NonceIn(a).Null? && !NonceIn(c).Null? && !(NonceIn(a) == NonceIn(c) && IsScalar(NonceIn(a))))
    || (code == AUTHORIZATION_EXPIRED_BEFORE_CONSEQUENCE
        && !ExpiryIn(a).Null? && !TimeIn(c).Null? && LaterThan(p, TimeIn(c), ExpiryIn(a)))
    || ExecutorInvalid(a, c, code)
  }

  /** The consequence receipt names another admission receipt than the one at hand. */
  predicate LinkInvalid(a: Json, c: Json, code: Code) {
    && IsHash(HashIn(a))
    && (|| (code == ADMISSION_RECEIPT_BINDING_MISMATCH && Get(c, ADMISSION_RECEIPT_HASH) != HashIn(a))
        || (code == PREVIOUS_RECEIPT_HASH_MISMATCH && LinkIn(c) != HashIn(a)))
  }

  predicate ExecutorInvalid(a: Json, c: Json, code: Code) {
    || (code == EXECUTOR_NODE_NOT_PERMITTED
        && !Permits(Get(Get(a, DECISION), PERMITTED_EXECUTOR_NODES), Get(Get(c, EXECUTOR), NODE_ID)))
    || (code == EXECUTION_CONTEXT_NOT_PERMITTED
        && !Permits(Get(Get(a, DECISION), PERMITTED_EXECUTION_CONTEXTS), Get(Get(c, EXECUTOR), EXECUTION_CONTEXT)))
  }

  /** The code stands for something that is missing or left open; action and consequence are judged only where
      nothing is invalid. */
  predicate UnresolvedFor(i: Inputs, clean: bool, code: Code) {
    MissingFor(i, code) || (clean && OpenFor(i, code))
  }

  predicate MissingFor(i: Inputs, code: Code) {
    var a, c := i.admission, i.consequence;
    || ReceiptsMissing(a, c, code)
    || StatusesMissing(i.cryptographicEvidence, code)
    || (code == AUTHORIZATION_NONCE_UNAVAILABLE && (NonceIn(a).Null? || NonceIn(c).Null?))
    || NonceOpen(i.nonceState, code)
    || (code == TEMPORAL_BINDING_INCOMPLETE && ExpiryIn(a).Null? != TimeIn(c).Null?)
    || (code == UNSUPPORTED_CANONICALIZATION_PROFILE && !ProfileCloses(c))
  }

  predicate OpenFor(i: Inputs, code: Code) {
    var a, c := i.admission, i.consequence;
    || (code == ACTION_CONFORMANCE_INDETERMINATE && !ActionCloses(a, c))
    || (code == OpenReason(i.evaluator, ModeIn(a)) && !OutcomeCloses(a, c, i.evaluator))
  }

  predicate ReceiptsMissing(a: Json, c: Json, code: Code) {
    || (code == ADMISSION_RECEIPT_UNAVAILABLE && !a.Obj?)
    || (code == CONSEQUENCE_RECEIPT_UNAVAILABLE && !c.Obj?)
    || (code == ADMISSION_RECEIPT_HASH_UNAVAILABLE && !IsHash(HashIn(a)))
    || (code == CONSEQUENCE_RECEIPT_HASH_UNAVAILABLE && !IsHash(HashIn(c)))
  }

  predicate StatusOpen(status: Json) {
    status != Str(U("VALID")) && status != Str(U("INVALID"))
  }

  predicate StatusesMissing(crypto: Json, code: Code) {
    if !crypto.Obj? then code == CRYPTOGRAPHIC_EVIDENCE_UNAVAILABLE
    else
      || (code == ADMISSION_RECEIPT_CRYPTO_UNRESOLVED && StatusOpen(Get(crypto, ADMISSION_RECEIPT)))
      || (code == CONSEQUENCE_RECEIPT_CRYPTO_UNRESOLVED && StatusOpen(Get(crypto, CONSEQUENCE_RECEIPT)))
      || (code == SENTINEL_ATTESTATION_UNRESOLVED && StatusOpen(Get(crypto, SENTINEL_ATTESTATION)))
  }

  predicate NonceOpen(state: Json, code: Code) {
    if !Truthy(state) then code == AUTHORIZATION_NONCE_STATE_UNAVAILABLE
    else if state == Str(U("RECOVERY_REQUIRED")) then code == NONCE_RECOVERY_REQUIRED
    else
      && code == AUTHORIZATION_NONCE_NOT_TERMINAL
      && state != Str(U("CONSUMED")) && state != Str(U("REVOKED"))
      && state != Str(U("EXPIRED")) && state != Str(U("ABORTED_BEFORE_RELEASE"))
  }

  lemma CryptoLists(crypto: Json, code: Code)
    ensures code in CryptoRule(crypto).invalid <==>
      || (code == ADMISSION_RECEIPT_CRYPTO_INVALID && Get(crypto, ADMISSION_RECEIPT) == Str(U("INVALID")))
      || (code == CONSEQUENCE_RECEIPT_CRYPTO_INVALID && Get(crypto, CONSEQUENCE_RECEIPT) == Str(U("INVALID")))
      || (code == SENTINEL_ATTESTATION_INVALID && Get(crypto, SENTINEL_ATTESTATION) == Str(U("INVALID")))
    ensures code in CryptoRule(crypto).unresolved <==> StatusesMissing(crypto, code)
  {
  }

  lemma ReceiptsList(a: Json, c: Json, code: Code)
    ensures code !in ReceiptRule(a, c, Extract(a, c)).invalid
    ensures code in ReceiptRule(a, c, Extract(a, c)).unresolved <==> ReceiptsMissing(a, c, code)
  {
    ExtractReads(a, c);
  }

  lemma ChainRuleLists(e: Evidence, code: Code)
    ensures code in ChainRule(e).invalid <==>
      && IsHash(e.admissionHash)
      && (|| (code == ADMISSION_RECEIPT_BINDING_MISMATCH && e.declaredAdmissionHash != e.admissionHash)
          || (code == PREVIOUS_RECEIPT_HASH_MISMATCH && e.previousReceiptHash != e.admissionHash))
    ensures code !in ChainRule(e).unresolved
  {
  }

  lemma DeclaredIs(v: Json, hash: Json)
    requires IsHash(hash)
    ensures FirstTruthy([v]) == hash <==> v == hash
  {
    FirstOfOne(v);
  }

  lemma ChainLists(a: Json, c: Json, code: Code)
    ensures code in ChainRule(Extract(a, c)).invalid <==> LinkInvalid(a, c, code)
    ensures code !in ChainRule(Extract(a, c)).unresolved
  {
    ExtractReads(a, c);
    ChainRuleLists(Extract(a, c), code);
    if IsHash(HashIn(a)) {
      DeclaredIs(Get(c, ADMISSION_RECEIPT_HASH), HashIn(a));
    }
  }

  lemma NonceRuleLists(e: Evidence, code: Code)
    ensures code in NonceRule(e).invalid <==>
      && code == AUTHORIZATION_NONCE_MISMATCH
      && Truthy(e.admissionNonce) && Truthy(e.consequenceNonce)
      && !(e.admissionNonce == e.consequenceNonce && IsScalar(e.admissionNonce))
    ensures code in NonceRule(e).unresolved <==>
      code == AUTHORIZATION_NONCE_UNAVAILABLE && (!Truthy(e.admissionNonce) || !Truthy(e.consequenceNonce))
  {
  }

  lemma NonceGiven(r: Json)
    ensures Truthy(NonceIn(r)) <==> !NonceIn(r).Null?
  {
    FirstTruthyOrNull([Get(r, AUTHORIZATION_NONCE), Get(Get(r, APPROVAL), NONCE)]);
  }

  lemma NonceLists(a: Json, c: Json, code: Code)
    ensures code in NonceRule(Extract(a, c)).invalid <==>
      && code == AUTHORIZATION_NONCE_MISMATCH
      && !NonceIn(a).Null? && !NonceIn(c).Null? && !(NonceIn(a) == NonceIn(c) && IsScalar(NonceIn(a)))
    ensures code in NonceRule(Extract(a, c)).unresolved <==>
      code == AUTHORIZATION_NONCE_UNAVAILABLE && (NonceIn(a).Null? || NonceIn(c).Null?)
  {
    ExtractReads(a, c);
    NonceRuleLists(Extract(a, c), code);
    NonceGiven(a);
    NonceGiven(c);
  }

  lemma ReplayLists(state: Json, code: Code)
    ensures code !in ReplayRule(state).invalid
    ensures code in ReplayRule(state).unresolved <==> NonceOpen(state, code)
  {
    TerminalStates(state);
  }

  lemma TimeRuleLists(p: Platform, e: Evidence, code: Code)
    ensures code in TimeRule(p, e).invalid <==>
      && code == AUTHORIZATION_EXPIRED_BEFORE_CONSEQUENCE
      && Truthy(e.expiresAt) && Truthy(e.consequenceCreatedAt) && LaterThan(p, e.consequenceCreatedAt, e.expiresAt)
    ensures code in TimeRule(p, e).unresolved <==>
      code == TEMPORAL_BINDING_INCOMPLETE && Truthy(e.expiresAt) != Truthy(e.consequenceCreatedAt)
  {
  }

  lemma TimesGiven(a: Json, c: Json)
    ensures Truthy(ExpiryIn(a)) <==> !ExpiryIn(a).Null?
    ensures Truthy(TimeIn(c)) <==> !TimeIn(c).Null?
  {
    FirstTruthyOrNull([Get(Get(a, DECISION), AUTHORIZATION_EXPIRES_AT)]);
    FirstTruthyOrNull([Get(c, CREATED_AT), Get(c, TIMESTAMP)]);
  }

  lemma TimeLists(p: Platform, a: Json, c: Json, code: Code)
    ensures code in TimeRule(p, Extract(a, c)).invalid <==>
      && code == AUTHORIZATION_EXPIRED_BEFORE_CONSEQUENCE
      && !ExpiryIn(a).Null? && !TimeIn(c).Null? && LaterThan(p, TimeIn(c), ExpiryIn(a))
    ensures code in TimeRule(p, Extract(a, c)).unresolved <==>
      code == TEMPORAL_BINDING_INCOMPLETE && ExpiryIn(a).Null? != TimeIn(c).Null?
  {
    ExtractReads(a, c);
    TimeRuleLists(p, Extract(a, c), code);
    TimesGiven(a, c);
  }

  lemma ExecutorLists(a: Json, c: Json, code: Code)
    ensures code in ExecutorRule(Extract(a, c)).invalid <==> ExecutorInvalid(a, c, code)
    ensures code !in ExecutorRule(Extract(a, c)).unresolved
  {
    var e := Extract(a, c);
    ExtractReads(a, c);
    PermitsExactly(e.allowedNodes, e.actualNode);
    PermitsExactly(e.allowedContexts, e.actualContext);
  }

  lemma ProfileLists(a: Json, c: Json, code: Code)
    ensures code !in ProfileRule(Extract(a, c)).invalid
    ensures code in ProfileRule(Extract(a, c)).unresolved <==>
      code == UNSUPPORTED_CANONICALIZATION_PROFILE && !ProfileCloses(c)
  {
    ExtractReads(a, c);
  }

  lemma ActionLists(a: Json, c: Json, code: Code)
    ensures ActionRule(Extract(a, c)).invalid == {}
    ensures code in ActionRule(Extract(a, c)).unresolved <==>
      code == ACTION_CONFORMANCE_INDETERMINATE && !ActionCloses(a, c)
  {
    ActionExactly(a, c);
  }

  lemma ConsequenceLists(a: Json, c: Json, evaluator: Evaluator, code: Code)
    ensures OutcomeRule(evaluator, Extract(a, c)).invalid == {}
    ensures code in OutcomeRule(evaluator, Extract(a, c)).unresolved <==>
      code == OpenReason(evaluator, ModeIn(a)) && !OutcomeCloses(a, c, evaluator)
  {
    OutcomeExactly(a, c, evaluator);
    OutcomeClosesExactly(a, c, evaluator);
  }

  lemma GatheredMembers(base: Findings, a: Findings, b: Findings, code: Code)
    requires a.invalid == {} && b.invalid == {}
    ensures var f := if base.invalid != {} then base else Both(base, Both(a, b));
      && f.invalid == base.invalid
      && (code in f.unresolved <==>
            code in base.unresolved || (base.invalid == {} && (code in a.unresolved || code in b.unresolved)))
  {
  }

  lemma {:induction false} PooledMembers(fs: seq<Findings>, code: Code)
    ensures code in BothAll(fs).invalid <==> exists k | 0 <= k < |fs| :: code in fs[k].invalid
    ensures code in BothAll(fs).unresolved <==> exists k | 0 <= k < |fs| :: code in fs[k].unresolved
  {
    if fs != [] {
      PooledMembers(fs[1..], code);
      assert forall k | 1 <= k < |fs| :: fs[k] == fs[1..][k - 1];
      assert forall k | 0 <= k < |fs| - 1 :: fs[1..][k] == fs[k + 1];
    }
  }

  lemma EightListed(a: Findings, b: Findings, c: Findings, d: Findings,
                     e: Findings, f: Findings, g: Findings, h: Findings, code: Code)
    ensures var all := BothAll([a, b, c, d, e, f, g, h]);
      && (code in all.invalid <==>
            || code in a.invalid || code in b.invalid || code in c.invalid || code in d.invalid
            || code in e.invalid || code in f.invalid || code in g.invalid || code in h.invalid)
      && (code in all.unresolved <==>
            || code in a.unresolved || code in b.unresolved || code in c.unresolved || code in d.unresolved
            || code in e.unresolved || code in f.unresolved || code in g.unresolved || code in h.unresolved)
  {
    var fs := [a, b, c, d, e, f, g, h];
    PooledMembers(fs, code);
    assert fs[0] == a && fs[1] == b && fs[2] == c && fs[3] == d && fs[4] == e && fs[5] == f && fs[6] == g && fs[7] == h;
  }

  /** The eight rules always applied list exactly these codes. */
  lemma BaseLists(p: Platform, i: Inputs, code: Code)
    ensures var base := BothAll(BaseRules(p, i, Extract(i.admission, i.consequence)));
      && (code in base.invalid <==> InvalidFor(p, i, code))
      && (code in base.unresolved <==> MissingFor(i, code))
  {
    var a, c := i.admission, i.consequence;
    var e := Extract(a, c);
    EightListed(ReceiptRule(a, c, e), CryptoRule(i.cryptographicEvidence), ChainRule(e), NonceRule(e),
                 ReplayRule(i.nonceState), TimeRule(p, e), ExecutorRule(e), ProfileRule(e), code);
    CryptoLists(i.cryptographicEvidence, code);
    ReceiptsList(a, c, code);
    ChainLists(a, c, code);
    NonceLists(a, c, code);
    ReplayLists(i.nonceState, code);
    TimeLists(p, a, c, code);
    ExecutorLists(a, c, code);
    ProfileLists(a, c, code);
  }

  lemma LastLists(p: Platform, i: Inputs, code: Code)
    ensures var e := Extract(i.admission, i.consequence);
      var base, f := BothAll(BaseRules(p, i, e)), Gathered(p, i, e);
      && f.invalid == base.invalid
      && (code in f.unresolved <==> code in base.unresolved || (f.invalid == {} && OpenFor(i, code)))
  {
    var e := Extract(i.admission, i.consequence);
    ActionLists(i.admission, i.consequence, code);
    ConsequenceLists(i.admission, i.consequence, i.evaluator, code);
    GatheredMembers(BothAll(BaseRules(p, i, e)), ActionRule(e), OutcomeRule(i.evaluator, e), code);
  }

  /** Which codes are gathered, in terms of the receipts' own members. */
  lemma ReasonsExactly(p: Platform, i: Inputs, code: Code)
    ensures var f := Gathered(p, i, Extract(i.admission, i.consequence));
      && (code in f.invalid <==> InvalidFor(p, i, code))
      && (code in f.unresolved <==> UnresolvedFor(i, f.invalid == {}, code))
  {
    BaseLists(p, i, code);
    LastLists(p, i, code);
  }
}
