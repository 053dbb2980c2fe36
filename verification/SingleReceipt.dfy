/** Verification of one receipt, with its persistent store of verified nonces. */
module SingleReceipt {
  import opened Unicode
  import opened Values
  import opened Canonical
  import opened Platform
  import opened Receipts
  import opened HashChain
  import opened Gate
  import opened Nonces
  import opened Runs
  import opened Construction

  datatype Results = Results(
    receiptHashValid: bool,
    signatureValid: bool,
    keyTrusted: bool,
    nonceUnique: bool,
    validationPresent: bool,
    validationComplete: bool,
    pass: bool
  )

  function ReducedPayload(receipt: Json): Text {
    Legacy(BodyWithoutUnit(receipt))
  }

  /** The nonce the verifier reads; falsy when the approval is missing. */
  function NonceOf(receipt: Json): Json {
    if Truthy(Get(receipt, APPROVAL)) then Get(Get(receipt, APPROVAL), NONCE) else Get(receipt, APPROVAL)
  }

  const REQUIRED_CHECKS: seq<Text> := [INTENT_MATCH, CONTEXT_MATCH, SCOPE_VALID, EXECUTION_PATH_VALID]

  predicate ValidationPresent(receipt: Json) {
    var v := Get(receipt, VALIDATION);
    Truthy(v) && Truthy(Get(v, DECISION)) && Truthy(Get(v, CHECKS)) && Truthy(Get(v, POLICY_VERSION))
  }

  predicate ValidationComplete(receipt: Json) {
    var v := Get(receipt, VALIDATION);
    && Truthy(v) && Truthy(Get(v, CHECKS))
    && forall i | 0 <= i < |REQUIRED_CHECKS| :: Get(Get(v, CHECKS), REQUIRED_CHECKS[i]).Bool?
  }

  /** The store after one verification: a truthy nonce is recorded whatever else fails. */
  function Noted(used: seq<Json>, receipt: Json): seq<Json> {
    if Truthy(NonceOf(receipt)) then Recorded(used, NonceOf(receipt)) else used
  }

  predicate Fresh(used: seq<Json>, receipt: Json) {
    Truthy(NonceOf(receipt)) && !Includes(used, NonceOf(receipt))
  }

  /** Everything but the nonce. */
  predicate Intact(p: Platform, trusted: seq<Json>, receipt: Json) {
    && Get(receipt, RECEIPT_HASH) == Str(p.sha256(ReducedPayload(receipt)))
    && p.verify(Get(receipt, PUBLIC_KEY), ReducedPayload(receipt), Get(receipt, SIGNATURE)) == Valid
    && Includes(trusted, Get(receipt, PUBLIC_KEY))
    && ValidationPresent(receipt) && ValidationComplete(receipt)
  }

  /** Six findings set one after the other, and a pass only if all hold; reading a field of a null
      receipt throws before anything is recorded. */
  method VerifyReceipt(p: Platform, trusted: seq<Json>, store: NonceStore, receipt: Json) returns (r: Option<Results>)
    modifies store
    ensures r.None? <==> Nullish(receipt)
    ensures r.None? ==> store.used == old(store.used)
    ensures r.Some? ==> (r.value.pass <==> Intact(p, trusted, receipt) && Fresh(old(store.used), receipt))
    ensures r.Some? ==> (r.value.nonceUnique <==> Fresh(old(store.used), receipt))
    ensures r.Some? ==>
      (r.value.receiptHashValid <==> Get(receipt, RECEIPT_HASH) == Str(p.sha256(ReducedPayload(receipt))))
    ensures r.Some? ==> (r.value.signatureValid <==>
      p.verify(Get(receipt, PUBLIC_KEY), ReducedPayload(receipt), Get(receipt, SIGNATURE)) == Valid)
    ensures r.Some? ==> (r.value.keyTrusted <==> Includes(trusted, Get(receipt, PUBLIC_KEY)))
    ensures r.Some? ==> (r.value.validationPresent <==> ValidationPresent(receipt))
    ensures r.Some? ==> (r.value.validationComplete <==> ValidationComplete(receipt))
    ensures r.Some? && r.value.pass ==>
      var checks := Get(Get(receipt, VALIDATION), CHECKS);
      && BoolAt(checks, INTENT_MATCH) && BoolAt(checks, CONTEXT_MATCH)
      && BoolAt(checks, SCOPE_VALID) && BoolAt(checks, EXECUTION_PATH_VALID)
    ensures r.Some? ==> store.used == Noted(old(store.used), receipt)
  {
    ValidationExactly(receipt);
    if Nullish(receipt) {
      return None;
    }
    var results := Results(false, false, false, false, false, false, false);
    var payload := ReducedPayload(receipt);
    results := results.(receiptHashValid := StrictEq(Str(p.sha256(payload)), Get(receipt, RECEIPT_HASH)));
    results := results.(signatureValid := p.verify(Get(receipt, PUBLIC_KEY), payload, Get(receipt, SIGNATURE)) == Valid);
    results := results.(keyTrusted := Includes(trusted, Get(receipt, PUBLIC_KEY)));
    var receiptNonce := NonceOf(receipt);
    if Truthy(receiptNonce) && !Includes(store.used, receiptNonce) {
      results := results.(nonceUnique := true);
      var admitted := store.CheckAndRecordNonce(receiptNonce);
    }
    results := results.(validationPresent := ValidationPresent(receipt));
    results := results.(validationComplete := ValidationComplete(receipt));
    results := results.(pass :=
      results.receiptHashValid && results.signatureValid && results.keyTrusted && results.nonceUnique
      && results.validationPresent && results.validationComplete);
    return Some(results);
  }

  // ---------------------------------------------------------------- what a pass means

  /** The eight fields of the receipt, and nothing else. */
  function EightFields(r: Json): Json {
    Obj([
      Member(RECEIPT_ID, Get(r, RECEIPT_ID)), Member(TIMESTAMP, Get(r, TIMESTAMP)),
      Member(INTENT_HASH, Get(r, INTENT_HASH)), Member(EXECUTION_HASH, Get(r, EXECUTION_HASH)),
      Member(VALIDATION, Get(r, VALIDATION)), Member(DECISION, Get(r, DECISION)),
      Member(APPROVAL, Get(r, APPROVAL)), Member(CHAIN_REFERENCE, Get(r, CHAIN_REFERENCE))])
  }

  predicate BoolAt(j: Json, key: Text) { Get(j, key).Bool? }

  /** The two findings on the validation, in terms of the receipt's own members. */
  lemma ValidationExactly(r: Json)
    ensures ValidationPresent(r) <==>
      && Truthy(Get(Get(r, VALIDATION), DECISION)) && Truthy(Get(Get(r, VALIDATION), CHECKS))
      && Truthy(Get(Get(r, VALIDATION), POLICY_VERSION))
    ensures ValidationComplete(r) <==>
      && Truthy(Get(r, VALIDATION)) && Truthy(Get(Get(r, VALIDATION), CHECKS))
      && var checks := Get(Get(r, VALIDATION), CHECKS);
         && BoolAt(checks, INTENT_MATCH) && BoolAt(checks, CONTEXT_MATCH)
         && BoolAt(checks, SCOPE_VALID) && BoolAt(checks, EXECUTION_PATH_VALID)
  {
    assert REQUIRED_CHECKS[0] == INTENT_MATCH && REQUIRED_CHECKS[1] == CONTEXT_MATCH
      && REQUIRED_CHECKS[2] == SCOPE_VALID && REQUIRED_CHECKS[3] == EXECUTION_PATH_VALID;
  }

  /** A receipt passes exactly if its own members say so: hash, signature and key fit its eight fields, a decision, a
      policy and all four checks are there, each check a boolean, and its nonce is truthy and not in the store. */
  lemma PassExactly(p: Platform, trusted: seq<Json>, used: seq<Json>, r: Json)
    ensures Intact(p, trusted, r) && Fresh(used, r) <==>
      var payload, key, v := Legacy(EightFields(r)), Get(r, PUBLIC_KEY), Get(r, VALIDATION);
      var checks, nonce := Get(v, CHECKS), Get(Get(r, APPROVAL), NONCE);
      && Get(r, RECEIPT_HASH) == Str(p.sha256(payload))
      && p.verify(key, payload, Get(r, SIGNATURE)) == Valid
      && Includes(trusted, key)
      && Truthy(v) && Truthy(Get(v, DECISION)) && Truthy(checks) && Truthy(Get(v, POLICY_VERSION))
      && BoolAt(checks, INTENT_MATCH) && BoolAt(checks, CONTEXT_MATCH)
      && BoolAt(checks, SCOPE_VALID) && BoolAt(checks, EXECUTION_PATH_VALID)
      && Truthy(nonce) && !Includes(used, nonce)
  {
    ValidationExactly(r);
    EightFieldsAre(r);
    NonceExactly(r);
  }

  lemma EightFieldsAre(r: Json)
    ensures EightFields(r) == BodyWithoutUnit(r)
  {
    assert EightFields(r).members == Pick(r, BODY_KEYS);
  }

  lemma NonceExactly(r: Json)
    ensures Truthy(NonceOf(r)) <==> Truthy(Get(Get(r, APPROVAL), NONCE))
    ensures Truthy(NonceOf(r)) ==> NonceOf(r) == Get(Get(r, APPROVAL), NONCE)
  {
  }

  lemma TruthyDecision(v: Validation)
    requires v.Validation?
    ensures Truthy(DecisionJson(v.allow)) && Truthy(Str(U("1.0.0")))
  {
    assert |U("ALLOW")| == 5 && |U("BLOCK")| == 5 && |U("1.0.0")| == 5;
  }

  /** The validation of every receipt the gate constructs is present and complete, whatever it decided. */
  lemma ConstructedComplete(r: Json, v: Validation)
    requires v.Validation? && Get(r, VALIDATION) == ValidationJson(v)
    ensures ValidationPresent(r) && ValidationComplete(r)
  {
    ValidationRead(v);
    TruthyDecision(v);
    ValidationExactly(r);
  }

  // ---------------------------------------------------------------- runs of verifications

  /** The store after a run of verifications. */
  function NotedAll(used: seq<Json>, receipts: seq<Json>): seq<Json> {
    if receipts == [] then used
    else Noted(NotedAll(used, receipts[..|receipts| - 1]), receipts[|receipts| - 1])
  }

  predicate Passes(p: Platform, trusted: seq<Json>, used: seq<Json>, receipts: seq<Json>, k: nat)
    requires k < |receipts|
  {
    Intact(p, trusted, receipts[k]) && Fresh(NotedAll(used, receipts[..k]), receipts[k])
  }

  /** The nonces that reach the store. */
  function TruthyNonces(receipts: seq<Json>): seq<Json> {
    if receipts == [] then []
    else
      TruthyNonces(receipts[..|receipts| - 1])
      + (if Truthy(NonceOf(receipts[|receipts| - 1])) then [NonceOf(receipts[|receipts| - 1])] else [])
  }

  /** Verifying receipts drives the store as trying their truthy nonces does. */
  lemma {:induction false} NotedAllIsAfter(used: seq<Json>, receipts: seq<Json>)
    ensures NotedAll(used, receipts) == After(used, TruthyNonces(receipts))
    decreases |receipts|
  {
    if receipts != [] {
      var n := |receipts| - 1;
      var before, nonces := receipts[..n], TruthyNonces(receipts[..n]);
      NotedAllIsAfter(used, before);
      if Truthy(NonceOf(receipts[n])) {
        var all := nonces + [NonceOf(receipts[n])];
        assert all[..|nonces|] == nonces;
      } else {
        assert TruthyNonces(receipts) == nonces;
      }
    }
  }

  lemma {:induction false} TruthyNonceIn(receipts: seq<Json>, i: nat)
    requires i < |receipts| && Truthy(NonceOf(receipts[i]))
    ensures NonceOf(receipts[i]) in TruthyNonces(receipts)
    decreases |receipts|
  {
    if i < |receipts| - 1 {
      TruthyNonceIn(receipts[..|receipts| - 1], i);
    }
  }

  /** Replay safety: once a recognisable nonce has been seen, even on a receipt that failed otherwise, no
      later receipt with that nonce passes. */
  lemma NoncePassesOnce(p: Platform, trusted: seq<Json>, used: seq<Json>, receipts: seq<Json>, i: nat, k: nat)
    requires NoUndefined(used) && i < k < |receipts|
    requires NonceOf(receipts[i]) == NonceOf(receipts[k]) && Recognisable(NonceOf(receipts[k]))
    ensures !Passes(p, trusted, used, receipts, k)
  {
    var nonce, before := NonceOf(receipts[k]), receipts[..k];
    if Truthy(nonce) {
      NotedAllIsAfter(used, before);
      TruthyNonceIn(before, i);
      StoreAfterRun(used, TruthyNonces(before), nonce);
      var j :| 0 <= j < |TruthyNonces(before)| && TruthyNonces(before)[j] == nonce;
      assert StrictEq(Persisted(TruthyNonces(before)[j]), nonce);
    }
  }

  /** A nonce that is an object or array is never recognised again: whether such a receipt passes does not
      depend on what was verified before. */
  lemma StructuredNonceNeverSpent(p: Platform, trusted: seq<Json>, used: seq<Json>, receipts: seq<Json>, k: nat)
    requires k < |receipts| && (NonceOf(receipts[k]).Arr? || NonceOf(receipts[k]).Obj?)
    ensures Passes(p, trusted, used, receipts, k) <==> Intact(p, trusted, receipts[k])
  {
  }

  // ---------------------------------------------------------------- the unit id

  /** The hash of a stored receipt is confirmed exactly when no unit id was signed and the body survives
      storage, short of a collision between the signed payload and the one recomputed. */
  lemma HashConfirmedExactly(p: Platform, key: Text, body: Json)
    requires BodyShape(body)
    ensures var r := StoredReceipt(p, key, body);
      Get(r, RECEIPT_HASH) == Str(p.sha256(ReducedPayload(r))) <==>
        (MUS_UNIT_ID !in Keys(body.members) && Survives(body)) || Collides(p.sha256, ReducedPayload(r), Legacy(body))
  {
    var r := StoredReceipt(p, key, body);
    StoredSealSpec(p, key, body);
    ReducedPayloadRecomputes(p, key, body);
  }

  lemma ReducedPayloadRecomputes(p: Platform, key: Text, body: Json)
    requires BodyShape(body)
    ensures ReducedPayload(StoredReceipt(p, key, body)) == Legacy(body)
      <==> MUS_UNIT_ID !in Keys(body.members) && Survives(body)
  {
    var signed := SignReceiptBody(p, key, body);
    var r := Stored(signed);
    BodyKeySet();
    SignedSpec(p, key, body, MUS_UNIT_ID);
    StoredGet(signed, MUS_UNIT_ID);
    if MUS_UNIT_ID in Keys(body.members) {
      ReducedBodySpec(r);
      StoredProper(signed);
      UnitKeysOk(BodyWithoutUnit(r));
      UnitKeysOk(body);
      CanonicalTextIdentifiesValue(ByUnit, BodyWithoutUnit(r), body);
      if Alike(BodyWithoutUnit(r), body) {
        AlikeKeys(BodyWithoutUnit(r).members, body.members);
        assert false;
      }
    } else {
      LookupAbsent(body.members, MUS_UNIT_ID);
      assert Body(r).members == BodyWithoutUnit(r).members;
      StoredPayloadRecomputes(p, key, body);
    }
  }

  lemma ReducedBodySpec(r: Json)
    ensures Keys(BodyWithoutUnit(r).members) == KeySet(BODY_KEYS)
    ensures Proper(r) ==> Proper(BodyWithoutUnit(r))
  {
    FieldNamesDiffer();
    assert forall i | 0 <= i < |BODY_KEYS| :: BODY_KEYS[i] == (BODY_KEYS + [MUS_UNIT_ID])[i];
    PickSpec(r, BODY_KEYS, RECEIPT_ID);
    if Proper(r) {
      forall i | 0 <= i < |BODY_KEYS| ensures Proper(Pick(r, BODY_KEYS)[i].value) {
        ProperGet(r, BODY_KEYS[i]);
      }
    }
  }

  // ---------------------------------------------------------------- the gate's receipts

  lemma StoredConstructed(p: Platform, r: Request, previousReceiptHash: Json)
    requires r.validation.Validation? && Proper(r.approval) && Proper(r.unit) && Proper(previousReceiptHash)
    ensures var body := BodyFor(p, r, previousReceiptHash);
      && BodyShape(body)
      && (MUS_UNIT_ID in Keys(body.members) <==> Truthy(r.unit))
      && Get(StoredReceipt(p, r.key, body), VALIDATION) == ValidationJson(r.validation)
      && Get(Get(StoredReceipt(p, r.key, body), APPROVAL), NONCE) == Stored(Get(r.approval, NONCE))
  {
    var v, unit := r.validation, if Truthy(r.unit) then Some(r.unit) else None;
    var intentHash, executionHash := p.sha256(Legacy(r.intent)), p.sha256(Legacy(r.executionInput));
    ValidationObject(v);
    ApprovalObject(r.approval);
    AssembledSurvives(r.stamp, intentHash, executionHash, ValidationJson(v), DecisionJson(v.allow),
                      ApprovalJson(r.approval), previousReceiptHash, unit);
    AssembledRead(p, r.key, r.stamp, intentHash, executionHash, ValidationJson(v), DecisionJson(v.allow),
                  ApprovalJson(r.approval), previousReceiptHash, unit);
    BodyKeySet();
    BuildBodySpec(
      [Str(r.stamp.receiptId), Str(r.stamp.timestamp), Str(intentHash), Str(executionHash), ValidationJson(v),
       DecisionJson(v.allow), ApprovalJson(r.approval), ChainReferenceJson(previousReceiptHash)], unit);
    var signed := ConstructReceipt(p, r, previousReceiptHash);
    SignedSpec(p, r.key, BodyFor(p, r, previousReceiptHash), VALIDATION);
    StoredGet(signed, VALIDATION);
    StoredGet(signed, APPROVAL);
    StoredOfDefined(ValidationJson(v));
    StoredGet(ApprovalJson(r.approval), NONCE);
    ApprovalRead(r.approval);
  }

  /** A receipt the gate constructs, written out and read back, passes verification if no unit id was signed, the
      approval is complete, the link is given, and its nonce is truthy and new; and only then, short of a collision
      between the signed payload and the one recomputed. Whether the gate allowed or blocked does not count. */
  lemma ConstructedPassesExactly(p: Platform, trusted: seq<Json>, used: seq<Json>, r: Request, previousReceiptHash: Json)
    requires SignsSoundly(p) && Includes(trusted, Str(p.publicKey(r.key)))
    requires r.validation.Validation? && Proper(r.approval) && Proper(r.unit) && Defined(r.unit)
    requires Proper(previousReceiptHash)
    ensures var body := BodyFor(p, r, previousReceiptHash);
      var stored := StoredReceipt(p, r.key, body);
      var nonce := Stored(Get(r.approval, NONCE));
      var passes := Intact(p, trusted, stored) && Fresh(used, stored);
      var unused := Truthy(nonce) && !Includes(used, nonce);
      var intact := !Truthy(r.unit) && ApprovalComplete(r.approval) && Defined(previousReceiptHash);
      && (intact && unused ==> passes)
      && (passes ==> unused && (intact || Collides(p.sha256, ReducedPayload(stored), Legacy(body))))
  {
    var body := BodyFor(p, r, previousReceiptHash);
    var stored := StoredReceipt(p, r.key, body);
    StoredConstructed(p, r, previousReceiptHash);
    ConstructedSurvives(p, r.unit, r.stamp, r.intent, r.executionInput, r.approval, r.validation, previousReceiptHash);
    StoredSealSpec(p, r.key, body);
    HashConfirmedExactly(p, r.key, body);
    ReducedPayloadRecomputes(p, r.key, body);
    ConstructedComplete(stored, r.validation);
    NonceExactly(stored);
  }
}
