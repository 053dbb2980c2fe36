/** The fail-closed gate and the construction of receipts. */
module Gate {
  import opened Unicode
  import opened Values
  import opened Canonical
  import opened Platform
  import opened Receipts
  import opened HashChain

  const ACTION: Text := U("action")
  const SCOPE: Text := U("scope")
  const APPROVAL_ID: Text := U("approval_id")
  const AUTHORIZER: Text := U("authorizer")
  const NONCE: Text := U("nonce")
  const CHECKS: Text := U("checks")
  const POLICY_VERSION: Text := U("policy_version")
  const INTENT_MATCH: Text := U("intent_match")
  const CONTEXT_MATCH: Text := U("context_match")
  const SCOPE_VALID: Text := U("scope_valid")
  const EXECUTION_PATH_VALID: Text := U("execution_path_valid")

  const ALLOWED_ACTIONS: seq<Json> :=
    [Str(U("send_email")), Str(U("create_document")), Str(U("schedule_meeting"))]

  datatype Checks = Checks(intentMatch: bool, contextMatch: bool, scopeValid: bool, executionPathValid: bool)

  /** The gate's answer; it throws on a missing intent, execution or approval. */
  datatype Validation = Validation(allow: bool, checks: Checks) | Threw

  predicate Nullish(v: Json) { v.Null? || v.Undef? }

  /** The gate: deep equality by hash, approval binding, scope and action checks. */
  function Validate(p: Platform, intent: Json, executionInput: Json, approval: Json): Validation {
    if intent.Undef? || Nullish(executionInput) || Nullish(approval) then Validation.Threw
    else
      var intentHash := p.sha256(Legacy(intent));
      var executionHash := p.sha256(Legacy(executionInput));
      var checks := Checks(
        intentHash == executionHash,
        StrictEq(Get(approval, INTENT_HASH), Str(intentHash)),
        StrictEq(Get(executionInput, ACTION), Get(approval, SCOPE)),
        Includes(ALLOWED_ACTIONS, Get(executionInput, ACTION)));
      Validation(checks.intentMatch && checks.contextMatch && checks.scopeValid && checks.executionPathValid, checks)
  }

  predicate Allows(v: Validation) { v.Validation? && v.allow }

  /** ALLOW exactly when execution and intent are the same JSON value, arrays whose only element is `undefined`
      counting as empty, the approval binds that intent, and the action is in the approved scope and among the
      allowed ones; short of a collision of the two canonical texts. */
  lemma GateExact(p: Platform, intent: Json, executionInput: Json, approval: Json)
    requires Proper(intent) && Proper(executionInput)
    requires !intent.Undef? && !Nullish(executionInput) && !Nullish(approval)
    ensures Allows(Validate(p, intent, executionInput, approval)) <==>
      && (Alike(intent, executionInput) || Collides(p.sha256, Legacy(intent), Legacy(executionInput)))
      && Get(approval, INTENT_HASH) == Str(p.sha256(Legacy(intent)))
      && Get(executionInput, ACTION) == Get(approval, SCOPE)
      && Get(executionInput, ACTION) in ALLOWED_ACTIONS
  {
    UnitKeysOk(intent);
    UnitKeysOk(executionInput);
    CanonicalTextIdentifiesValue(ByUnit, intent, executionInput);
    var action := Get(executionInput, ACTION);
    assert forall i | 0 <= i < |ALLOWED_ACTIONS| :: ALLOWED_ACTIONS[i].Str?;
  }

  /** Each check on its own, and when the gate throws. */
  lemma ChecksExactly(p: Platform, intent: Json, executionInput: Json, approval: Json)
    requires Proper(intent) && Proper(executionInput)
    ensures Validate(p, intent, executionInput, approval).Threw?
      <==> intent.Undef? || executionInput.Undef? || executionInput.Null? || approval.Undef? || approval.Null?
    ensures Validate(p, intent, executionInput, approval).Validation? ==>
      var c := Validate(p, intent, executionInput, approval).checks;
      var action := Get(executionInput, ACTION);
      && (c.intentMatch <==>
            Alike(intent, executionInput) || Collides(p.sha256, Legacy(intent), Legacy(executionInput)))
      && (c.contextMatch <==> Get(approval, INTENT_HASH) == Str(p.sha256(Legacy(intent))))
      && (c.scopeValid <==> action == Get(approval, SCOPE) && !action.Arr? && !action.Obj?)
      && (c.executionPathValid <==> action in ALLOWED_ACTIONS)
  {
    UnitKeysOk(intent);
    UnitKeysOk(executionInput);
    CanonicalTextIdentifiesValue(ByUnit, intent, executionInput);
    assert forall i | 0 <= i < |ALLOWED_ACTIONS| :: ALLOWED_ACTIONS[i].Str?;
  }

  /** Where neither has such an array, that is exact match. */
  lemma GateExactOnDense(p: Platform, intent: Json, executionInput: Json, approval: Json)
    requires Proper(intent) && Proper(executionInput) && Dense(intent) && Dense(executionInput)
    requires !intent.Undef? && !Nullish(executionInput) && !Nullish(approval)
    requires Allows(Validate(p, intent, executionInput, approval))
    ensures Same(intent, executionInput) || Collides(p.sha256, Legacy(intent), Legacy(executionInput))
  {
    GateExact(p, intent, executionInput, approval);
    SqueezedOfDense(intent);
    SqueezedOfDense(executionInput);
  }

  const PARAMETERS: Text := U("parameters")

  function RequestFor(action: Json, parameters: seq<Json>): Json {
    Obj([Member(ACTION, action), Member(PARAMETERS, Arr(parameters))])
  }

  lemma RequestForSpec(action: Json, parameters: seq<Json>)
    requires action.Str?
    ensures Get(RequestFor(action, parameters), ACTION) == action
    ensures Get(RequestFor(action, parameters), PARAMETERS) == Arr(parameters)
    ensures (forall i | 0 <= i < |parameters| :: Proper(parameters[i])) ==> Proper(RequestFor(action, parameters))
    ensures Squeezed(RequestFor(action, parameters))
      == Obj([Member(ACTION, action), Member(PARAMETERS, Squeezed(Arr(parameters)))])
  {
    var ms := RequestFor(action, parameters).members;
    assert |ACTION| == 6 && |PARAMETERS| == 10;
    LookupAt(ms, 0);
    LookupAt(ms, 1);
    assert SqueezedMembers(ms) == [Member(ACTION, action), Member(PARAMETERS, Squeezed(Arr(parameters)))];
  }

  /** On every platform an approved request without parameters allows an execution with one undefined parameter,
      and no collision is involved. */
  lemma GateMissesLoneUndefined(p: Platform, action: Json)
    requires action in ALLOWED_ACTIONS
    ensures var intent, execution := RequestFor(action, []), RequestFor(action, [Undef]);
      var approval := Obj([Member(INTENT_HASH, Str(p.sha256(Legacy(intent)))), Member(SCOPE, action)]);
      && Allows(Validate(p, intent, execution, approval))
      && !Same(intent, execution)
      && !Collides(p.sha256, Legacy(intent), Legacy(execution))
  {
    var intent, execution := RequestFor(action, []), RequestFor(action, [Undef]);
    var approval := Obj([Member(INTENT_HASH, Str(p.sha256(Legacy(intent)))), Member(SCOPE, action)]);
    RequestForSpec(action, []);
    RequestForSpec(action, [Undef]);
    assert SqueezedItems([]) == [];
    SqueezedProper(intent);
    SameReflexive(Squeezed(intent));
    assert Alike(intent, execution);
    assert |INTENT_HASH| == 11 && |SCOPE| == 5;
    LookupAt(approval.members, 0);
    LookupAt(approval.members, 1);
    GateExact(p, intent, execution, approval);
    UnitKeysOk(intent);
    UnitKeysOk(execution);
    CanonicalTextIdentifiesValue(ByUnit, intent, execution);
    if Same(intent, execution) {
      SameGet(intent, execution, PARAMETERS);
    }
  }

  // ---------------------------------------------------------------- building bodies

  /** Fields `lo` to `hi` of a body, in the verifiers' field order. */
  function Fields(values: seq<Json>, lo: nat, hi: nat): (ms: seq<Member<Json>>)
    requires lo <= hi <= |values| == |BODY_KEYS|
    ensures |ms| == hi - lo
  {
    seq(hi - lo, i requires 0 <= i < hi - lo => Member(BODY_KEYS[lo + i], values[lo + i]))
  }

  /** A body whose unit id, if there is one, stands between the hashes and the validation. */
  function BuildBody(values: seq<Json>, unit: Option<Json>): Json
    requires |values| == |BODY_KEYS|
  {
    Obj(Fields(values, 0, 4) + (if unit.Some? then [Member(MUS_UNIT_ID, unit.value)] else []) + Fields(values, 4, 8))
  }

  /** Where the key of the `i`-th built member stands in the list of all body keys. */
  function Place(unit: Option<Json>, i: nat): int {
    if i < 4 then i else if unit.None? then i else if i == 4 then 8 else i - 1
  }

  lemma BuildBodyKeys(values: seq<Json>, unit: Option<Json>)
    requires |values| == |BODY_KEYS|
    ensures var ms := BuildBody(values, unit).members;
      && Distinct(ms)
      && |ms| == (if unit.Some? then 9 else 8)
      && forall i | 0 <= i < |ms| :: ms[i].key == (BODY_KEYS + [MUS_UNIT_ID])[Place(unit, i)]
  {
    FieldNamesDiffer();
    var ms, all := BuildBody(values, unit).members, BODY_KEYS + [MUS_UNIT_ID];
    forall i | 0 <= i < |ms| ensures ms[i].key == all[Place(unit, i)] {
    }
  }

  lemma BuildBodySpec(values: seq<Json>, unit: Option<Json>)
    requires |values| == |BODY_KEYS|
    ensures var body := BuildBody(values, unit);
      && Distinct(body.members)
      && Keys(body.members) == KeySet(BODY_KEYS) + (if unit.Some? then {MUS_UNIT_ID} else {})
      && (forall k | 0 <= k < |BODY_KEYS| :: Get(body, BODY_KEYS[k]) == values[k])
      && (unit.Some? ==> Get(body, MUS_UNIT_ID) == unit.value)
  {
    BuildBodyKeys(values, unit);
    var ms := BuildBody(values, unit).members;
    forall k | 0 <= k < |BODY_KEYS| ensures Lookup(ms, BODY_KEYS[k]) == values[k] && BODY_KEYS[k] in Keys(ms) {
      var i := if k < 4 || unit.None? then k else k + 1;
      assert ms[i] == Member(BODY_KEYS[k], values[k]);
      LookupAt(ms, i);
    }
    if unit.Some? {
      assert ms[4] == Member(MUS_UNIT_ID, unit.value);
      LookupAt(ms, 4);
    }
    forall key | key in Keys(ms)
      ensures key in KeySet(BODY_KEYS) + (if unit.Some? then {MUS_UNIT_ID} else {})
    {
      var i :| 0 <= i < |ms| && ms[i].key == key;
      assert Place(unit, i) < 8 ==> key == BODY_KEYS[Place(unit, i)];
    }
  }

  /** A built body survives storage exactly when each field is absent or free of `undefined`, and the unit
      id, if it is written at all, is truthy. */
  lemma BuildBodySurvives(values: seq<Json>, unit: Option<Json>)
    requires |values| == |BODY_KEYS|
    requires (forall k | 0 <= k < |values| :: Proper(values[k])) && (unit.Some? ==> Proper(unit.value))
    ensures var body := BuildBody(values, unit);
      && BodyShape(body)
      && (Survives(body) <==>
            && (forall k | 0 <= k < |values| :: values[k].Undef? || Defined(values[k]))
            && (unit.Some? ==> Truthy(unit.value) && Defined(unit.value)))
  {
    BuildBodySpec(values, unit);
    BodyKeySet();
    var body := BuildBody(values, unit);
    forall i | 0 <= i < |body.members| ensures Proper(body.members[i].value) {
    }
  }

  lemma NamedFields()
    ensures forall i | 0 <= i < |BODY_KEYS| :: NamedKey(BODY_KEYS[i])
    ensures NamedKey(MUS_UNIT_ID) && NamedKey(PREVIOUS_RECEIPT_HASH)
  {
    var initials := U("rtievdac");
    forall i | 0 <= i < |BODY_KEYS| ensures NamedKey(BODY_KEYS[i]) {
      assert BODY_KEYS[i][0] == initials[i];
    }
    assert MUS_UNIT_ID[0] == 'm' as int && PREVIOUS_RECEIPT_HASH[0] == 'p' as int;
  }

  predicate WritableMembers(ms: seq<Member<Json>>) {
    forall i | 0 <= i < |ms| :: NamedKey(ms[i].key) && Writable(ms[i].value)
  }

  lemma FieldsWritable(values: seq<Json>, lo: nat, hi: nat)
    requires lo <= hi <= |values| == |BODY_KEYS| && forall k | 0 <= k < |values| :: Writable(values[k])
    ensures WritableMembers(Fields(values, lo, hi))
  {
    NamedFields();
  }

  lemma WritableConcat(ms: seq<Member<Json>>, ns: seq<Member<Json>>)
    requires WritableMembers(ms) && WritableMembers(ns)
    ensures WritableMembers(ms + ns)
  {
  }

  lemma BuildBodyWritable(values: seq<Json>, unit: Option<Json>)
    requires |values| == |BODY_KEYS| && (forall k | 0 <= k < |values| :: Writable(values[k]))
    requires unit.Some? ==> Writable(unit.value)
    ensures Writable(BuildBody(values, unit))
  {
    var units := if unit.Some? then [Member(MUS_UNIT_ID, unit.value)] else [];
    NamedFields();
    FieldsWritable(values, 0, 4);
    FieldsWritable(values, 4, 8);
    WritableConcat(Fields(values, 0, 4), units);
    WritableConcat(Fields(values, 0, 4) + units, Fields(values, 4, 8));
  }

  // ---------------------------------------------------------------- the two builders

  function ChecksJson(c: Checks): Json {
    Obj([
      Member(INTENT_MATCH, Bool(c.intentMatch)),
      Member(CONTEXT_MATCH, Bool(c.contextMatch)),
      Member(SCOPE_VALID, Bool(c.scopeValid)),
      Member(EXECUTION_PATH_VALID, Bool(c.executionPathValid))
    ])
  }

  function DecisionJson(allow: bool): Json {
    Str(if allow then U("ALLOW") else U("BLOCK"))
  }

  function ValidationJson(v: Validation): Json
    requires v.Validation?
  {
    Obj([
      Member(DECISION, DecisionJson(v.allow)),
      Member(CHECKS, ChecksJson(v.checks)),
      Member(POLICY_VERSION, Str(U("1.0.0")))
    ])
  }

  function ApprovalJson(approval: Json): Json {
    Obj([
      Member(APPROVAL_ID, Get(approval, APPROVAL_ID)),
      Member(INTENT_HASH, Get(approval, INTENT_HASH)),
      Member(AUTHORIZER, Get(approval, AUTHORIZER)),
      Member(NONCE, Get(approval, NONCE))
    ])
  }

  function ChainReferenceJson(previousReceiptHash: Json): Json {
    Obj([Member(PREVIOUS_RECEIPT_HASH, previousReceiptHash)])
  }

  /** What the environment supplies to a new receipt. */
  datatype Stamp = Stamp(receiptId: Text, timestamp: Text)

  /** A body from its eight fields and perhaps a unit id. */
  function Assemble(stamp: Stamp, intentHash: Text, executionHash: Text, validation: Json, decision: Json,
                    approval: Json, previousReceiptHash: Json, unit: Option<Json>): Json {
    BuildBody(
      [Str(stamp.receiptId), Str(stamp.timestamp), Str(intentHash), Str(executionHash),
       validation, decision, approval, ChainReferenceJson(previousReceiptHash)],
      unit)
  }

  /** The body of the gate's receipt; the unit id is written only if truthy. */
  function ConstructBody(p: Platform, unit: Json, stamp: Stamp, intent: Json, executionInput: Json, approval: Json,
                         v: Validation, previousReceiptHash: Json): Json
    requires v.Validation?
  {
    Assemble(stamp, p.sha256(Legacy(intent)), p.sha256(Legacy(executionInput)), ValidationJson(v),
             DecisionJson(v.allow), ApprovalJson(approval), previousReceiptHash,
             if Truthy(unit) then Some(unit) else None)
  }

  /** The approval has every field the receipt copies. */
  predicate ApprovalComplete(approval: Json) {
    && Defined(Get(approval, APPROVAL_ID)) && Defined(Get(approval, INTENT_HASH))
    && Defined(Get(approval, AUTHORIZER)) && Defined(Get(approval, NONCE))
  }

  lemma ValidationObject(v: Validation)
    requires v.Validation?
    ensures Proper(ValidationJson(v)) && Defined(ValidationJson(v))
  {
    assert |INTENT_MATCH| == 12 && |CONTEXT_MATCH| == 13 && |SCOPE_VALID| == 11 && |EXECUTION_PATH_VALID| == 20;
    assert Proper(ChecksJson(v.checks)) && Defined(ChecksJson(v.checks));
    assert |DECISION| == 8 && |CHECKS| == 6 && |POLICY_VERSION| == 14;
  }

  lemma LinkObject(previousReceiptHash: Json)
    requires Proper(previousReceiptHash)
    ensures Proper(ChainReferenceJson(previousReceiptHash))
    ensures Defined(ChainReferenceJson(previousReceiptHash)) <==> Defined(previousReceiptHash)
    ensures Get(ChainReferenceJson(previousReceiptHash), PREVIOUS_RECEIPT_HASH) == previousReceiptHash
  {
    var c := ChainReferenceJson(previousReceiptHash);
    assert c.members[0].value == previousReceiptHash;
  }

  lemma ApprovalObject(approval: Json)
    requires Proper(approval)
    ensures Proper(ApprovalJson(approval)) && (Defined(ApprovalJson(approval)) <==> ApprovalComplete(approval))
  {
    assert |APPROVAL_ID| == 11 && |INTENT_HASH| == 11 && |AUTHORIZER| == 10 && |NONCE| == 5;
    assert APPROVAL_ID[0] == 'a' as int && INTENT_HASH[0] == 'i' as int;
    ProperGet(approval, APPROVAL_ID);
    ProperGet(approval, INTENT_HASH);
    ProperGet(approval, AUTHORIZER);
    ProperGet(approval, NONCE);
    var ms := ApprovalJson(approval).members;
    assert ms[0].value == Get(approval, APPROVAL_ID) && ms[1].value == Get(approval, INTENT_HASH)
      && ms[2].value == Get(approval, AUTHORIZER) && ms[3].value == Get(approval, NONCE);
  }

  lemma LinkedBodySurvives(values: seq<Json>, unit: Option<Json>, previousReceiptHash: Json)
    requires |values| == 8
    requires (forall k | 0 <= k < 7 :: Proper(values[k])) && (forall k | 0 <= k < 6 :: Defined(values[k]))
    requires !values[6].Undef? && values[7] == ChainReferenceJson(previousReceiptHash) && Proper(previousReceiptHash)
    requires unit.Some? ==> Proper(unit.value)
    ensures var body := BuildBody(values, unit);
      && BodyShape(body)
      && (Survives(body) <==>
            && Defined(values[6]) && Defined(previousReceiptHash)
            && (unit.Some? ==> Truthy(unit.value) && Defined(unit.value)))
      && PrevOf(body) == previousReceiptHash
      && Get(body, APPROVAL) == values[6]
  {
    LinkObject(previousReceiptHash);
    assert forall k | 0 <= k < 8 :: Proper(values[k]);
    BuildBodySurvives(values, unit);
    BuildBodySpec(values, unit);
    assert BODY_KEYS[7] == CHAIN_REFERENCE && BODY_KEYS[6] == APPROVAL;
    if forall k | 0 <= k < |values| :: values[k].Undef? || Defined(values[k]) {
      assert values[6].Undef? || Defined(values[6]);
      assert values[7].Undef? || Defined(values[7]);
    }
  }

  /** An assembled body survives storage exactly when approval and link hold no `undefined` and the unit
      id, if it is written at all, is truthy. */
  lemma AssembledSurvives(stamp: Stamp, intentHash: Text, executionHash: Text, validation: Json, decision: Json,
                          approval: Json, previousReceiptHash: Json, unit: Option<Json>)
    requires Proper(validation) && Proper(decision) && Proper(approval) && Proper(previousReceiptHash)
    requires Defined(validation) && Defined(decision) && !approval.Undef?
    requires unit.Some? ==> Proper(unit.value)
    ensures var body := Assemble(stamp, intentHash, executionHash, validation, decision, approval, previousReceiptHash, unit);
      && BodyShape(body)
      && (Survives(body) <==>
            && Defined(approval) && Defined(previousReceiptHash)
            && (unit.Some? ==> Truthy(unit.value) && Defined(unit.value)))
      && PrevOf(body) == previousReceiptHash
      && Get(body, APPROVAL) == approval
  {
    LinkedBodySurvives(
      [Str(stamp.receiptId), Str(stamp.timestamp), Str(intentHash), Str(executionHash),
       validation, decision, approval, ChainReferenceJson(previousReceiptHash)],
      unit, previousReceiptHash);
  }

  /** The gate's receipts survive storage exactly when the approval is complete and the link is given. */
  lemma ConstructedSurvives(p: Platform, unit: Json, stamp: Stamp, intent: Json, executionInput: Json,
                            approval: Json, v: Validation, previousReceiptHash: Json)
    requires v.Validation? && Proper(approval) && Proper(previousReceiptHash)
    requires Proper(unit) && Defined(unit)
    ensures var body := ConstructBody(p, unit, stamp, intent, executionInput, approval, v, previousReceiptHash);
      && BodyShape(body)
      && (Survives(body) <==> ApprovalComplete(approval) && Defined(previousReceiptHash))
      && PrevOf(body) == previousReceiptHash
  {
    ValidationObject(v);
    ApprovalObject(approval);
    AssembledSurvives(stamp, p.sha256(Legacy(intent)), p.sha256(Legacy(executionInput)), ValidationJson(v),
                      DecisionJson(v.allow), ApprovalJson(approval), previousReceiptHash,
                      if Truthy(unit) then Some(unit) else None);
  }

  /** The body of the draft receipt; the unit id is always written, whatever the configuration holds. */
  function DraftBody(unit: Json, stamp: Stamp, intentHash: Text, executionHash: Text, validation: Json,
                     decision: Json, approval: Json, previousReceiptHash: Json): Json {
    Assemble(stamp, intentHash, executionHash, validation, decision, approval, previousReceiptHash, Some(unit))
  }

  /** The draft receipts survive storage exactly when, besides, the configured unit id is truthy. */
  lemma DraftSurvives(unit: Json, stamp: Stamp, intentHash: Text, executionHash: Text, validation: Json,
                      decision: Json, approval: Json, previousReceiptHash: Json)
    requires Proper(unit) && Proper(validation) && Proper(decision) && Proper(approval) && Proper(previousReceiptHash)
    requires Defined(validation) && Defined(decision) && Defined(approval)
    ensures var body := DraftBody(unit, stamp, intentHash, executionHash, validation, decision, approval, previousReceiptHash);
      && BodyShape(body)
      && (Survives(body) <==> Truthy(unit) && Defined(unit) && Defined(previousReceiptHash))
      && PrevOf(body) == previousReceiptHash
      && Get(body, APPROVAL) == approval
  {
    AssembledSurvives(stamp, intentHash, executionHash, validation, decision, approval, previousReceiptHash, Some(unit));
  }
}
