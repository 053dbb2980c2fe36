/** Receipts: the signed body, its reconstruction by the verifiers, and what storage does to it. */
module Receipts {
  import opened Unicode
  import opened Values
  import opened Canonical
  import opened Platform

  const RECEIPT_ID: Text := U("receipt_id")
  const TIMESTAMP: Text := U("timestamp")
  const INTENT_HASH: Text := U("intent_hash")
  const EXECUTION_HASH: Text := U("execution_hash")
  const VALIDATION: Text := U("validation")
  const DECISION: Text := U("decision")
  const APPROVAL: Text := U("approval")
  const CHAIN_REFERENCE: Text := U("chain_reference")
  const MUS_UNIT_ID: Text := U("mus_unit_id")

  const RECEIPT_HASH: Text := U("receipt_hash")
  const SIGNATURE: Text := U("signature")
  const SIGNATURE_ALGORITHM: Text := U("signature_algorithm")
  const PUBLIC_KEY: Text := U("public_key")

  const PREVIOUS_RECEIPT_HASH: Text := U("previous_receipt_hash")

  /** The fields every verifier copies into the body. */
  const BODY_KEYS: seq<Text> :=
    [RECEIPT_ID, TIMESTAMP, INTENT_HASH, EXECUTION_HASH, VALIDATION, DECISION, APPROVAL, CHAIN_REFERENCE]

  /** The fields added after signing. */
  const SEAL_KEYS: seq<Text> := [RECEIPT_HASH, SIGNATURE, SIGNATURE_ALGORITHM, PUBLIC_KEY]

  function Pick(r: Json, keys: seq<Text>): (ms: seq<Member<Json>>)
    ensures |ms| == |keys|
  {
    seq(|keys|, i requires 0 <= i < |keys| => Member(keys[i], Get(r, keys[i])))
  }

  function UnitMember(r: Json): seq<Member<Json>> {
    if Truthy(Get(r, MUS_UNIT_ID)) then [Member(MUS_UNIT_ID, Get(r, MUS_UNIT_ID))] else []
  }

  /** The body the chain verifier reconstructs: eight fields, absent ones `undefined`, and the unit id if truthy. */
  function Body(r: Json): Json {
    Obj(Pick(r, BODY_KEYS) + UnitMember(r))
  }

  /** The body the single-receipt verifier reconstructs: it leaves the unit id out. */
  function BodyWithoutUnit(r: Json): Json {
    Obj(Pick(r, BODY_KEYS))
  }

  function Payload(r: Json): Text {
    Legacy(Body(r))
  }

  /** The link a receipt declares. */
  function PrevOf(r: Json): Json {
    if Truthy(Get(r, CHAIN_REFERENCE)) then Get(Get(r, CHAIN_REFERENCE), PREVIOUS_RECEIPT_HASH) else Null
  }

  function Seal(p: Platform, key: Text, body: Json): seq<Member<Json>> {
    var payload := Legacy(body);
    [Member(RECEIPT_HASH, Str(p.sha256(payload))),
     Member(SIGNATURE, Str(p.sign(key, payload))),
     Member(SIGNATURE_ALGORITHM, Str(U("Ed25519"))),
     Member(PUBLIC_KEY, Str(p.publicKey(key)))]
  }

  /** The signed receipt: the body's members followed by the seal. */
  function SignReceiptBody(p: Platform, key: Text, body: Json): Json
    requires body.Obj?
  {
    Obj(body.members + Seal(p, key, body))
  }

  // ---------------------------------------------------------------- field names

  predicate NoRepeat(keys: seq<Text>) {
    forall i, j | 0 <= i < j < |keys| :: keys[i] != keys[j]
  }

  function KeySet(keys: seq<Text>): set<Text> {
    set i | 0 <= i < |keys| :: keys[i]
  }

  lemma FieldNamesDiffer()
    ensures NoRepeat(BODY_KEYS + [MUS_UNIT_ID])
    ensures NoRepeat(SEAL_KEYS)
    ensures KeySet(BODY_KEYS + [MUS_UNIT_ID]) !! KeySet(SEAL_KEYS)
  {
    var initials := U("rtievdacm");
    forall i | 0 <= i < 9 ensures (BODY_KEYS + [MUS_UNIT_ID])[i][0] == initials[i] {
    }
    assert |RECEIPT_ID| == 10 && |RECEIPT_HASH| == 12;
    assert |SIGNATURE| == 9 && |SIGNATURE_ALGORITHM| == 19 && |PUBLIC_KEY| == 10;
    assert SIGNATURE[0] == 's' as int && SIGNATURE_ALGORITHM[0] == 's' as int && PUBLIC_KEY[0] == 'p' as int;
  }

  lemma PickSpec(r: Json, keys: seq<Text>, key: Text)
    requires NoRepeat(keys)
    ensures Distinct(Pick(r, keys)) && Keys(Pick(r, keys)) == KeySet(keys)
    ensures key in KeySet(keys) ==> Lookup(Pick(r, keys), key) == Get(r, key)
  {
    var ms := Pick(r, keys);
    assert forall i | 0 <= i < |keys| :: ms[i].key == keys[i];
    if key in KeySet(keys) {
      var i :| 0 <= i < |keys| && keys[i] == key;
      LookupAt(ms, i);
    }
  }

  /** Whether a receipt has a unit id to sign. */
  predicate HasUnit(r: Json) { Truthy(Get(r, MUS_UNIT_ID)) }

  lemma BodySpec(r: Json, key: Text)
    ensures Distinct(Body(r).members)
    ensures Keys(Body(r).members) == KeySet(BODY_KEYS) + if HasUnit(r) then {MUS_UNIT_ID} else {}
    ensures key in Keys(Body(r).members) ==> Get(Body(r), key) == Get(r, key)
    ensures Proper(r) ==> Proper(Body(r))
  {
    FieldNamesDiffer();
    var keys := BODY_KEYS + if HasUnit(r) then [MUS_UNIT_ID] else [];
    assert KeySet(keys) == KeySet(BODY_KEYS) + if HasUnit(r) then {MUS_UNIT_ID} else {} by {
      assert forall i | 0 <= i < |BODY_KEYS| :: keys[i] == BODY_KEYS[i];
      assert HasUnit(r) ==> keys[|BODY_KEYS|] == MUS_UNIT_ID;
    }
    assert NoRepeat(keys) by {
      assert forall i | 0 <= i < |keys| :: keys[i] == (BODY_KEYS + [MUS_UNIT_ID])[i];
    }
    assert Body(r).members == Pick(r, keys);
    PickSpec(r, keys, key);
    if Proper(r) {
      forall i | 0 <= i < |keys| ensures Proper(Pick(r, keys)[i].value) {
        ProperGet(r, keys[i]);
      }
    }
  }

  lemma WritableGet(r: Json, key: Text)
    requires Writable(r)
    ensures Writable(Get(r, key))
  {
    if r.Obj? {
      WritableLookup(r.members, key);
    }
  }

  lemma ProperGet(r: Json, key: Text)
    requires Proper(r)
    ensures Proper(Get(r, key))
  {
    if r.Obj? {
      ProperLookup(r.members, key);
    }
  }

  // ---------------------------------------------------------------- signing and storing

  /** A body as the two builders assemble it: the eight fields, in any order, and perhaps a unit id. */
  predicate BodyShape(body: Json) {
    && body.Obj? && Proper(body)
    && (Keys(body.members) == KeySet(BODY_KEYS) || Keys(body.members) == KeySet(BODY_KEYS) + {MUS_UNIT_ID})
  }

  lemma SealSpec(p: Platform, key: Text, body: Json)
    ensures var ms := Seal(p, key, body);
      && Distinct(ms) && Keys(ms) == KeySet(SEAL_KEYS)
      && (forall i | 0 <= i < |ms| :: Proper(ms[i].value))
      && Lookup(ms, RECEIPT_HASH) == Str(p.sha256(Legacy(body)))
      && Lookup(ms, SIGNATURE) == Str(p.sign(key, Legacy(body)))
      && Lookup(ms, SIGNATURE_ALGORITHM) == Str(U("Ed25519"))
      && Lookup(ms, PUBLIC_KEY) == Str(p.publicKey(key))
  {
    FieldNamesDiffer();
    var ms := Seal(p, key, body);
    assert forall i | 0 <= i < |ms| :: ms[i].key == SEAL_KEYS[i];
    assert SEAL_KEYS[0] == RECEIPT_HASH && SEAL_KEYS[1] == SIGNATURE && SEAL_KEYS[2] == SIGNATURE_ALGORITHM
      && SEAL_KEYS[3] == PUBLIC_KEY;
    LookupAt(ms, 0);
    LookupAt(ms, 1);
    LookupAt(ms, 2);
    LookupAt(ms, 3);
  }

  /** The signed receipt keeps every body field and carries the seal. */
  lemma SignedSpec(p: Platform, key: Text, body: Json, k: Text)
    requires BodyShape(body)
    ensures var r := SignReceiptBody(p, key, body);
      && Proper(r)
      && (k in KeySet(BODY_KEYS + [MUS_UNIT_ID]) ==> Get(r, k) == Get(body, k))
      && (k in KeySet(SEAL_KEYS) ==> Get(r, k) == Lookup(Seal(p, key, body), k))
  {
    FieldNamesDiffer();
    SealSpec(p, key, body);
    var seal := Seal(p, key, body);
    BodyKeySet();
    LookupConcat(body.members, seal, k);
    DistinctConcat(body.members, seal);
    if k !in Keys(body.members) && k !in KeySet(SEAL_KEYS) {
      LookupAbsent(body.members, k);
      LookupAbsent(seal, k);
    }
  }

  lemma BodyKeySet()
    ensures KeySet(BODY_KEYS + [MUS_UNIT_ID]) == KeySet(BODY_KEYS) + {MUS_UNIT_ID}
    ensures MUS_UNIT_ID !in KeySet(BODY_KEYS)
  {
    FieldNamesDiffer();
    var keys := BODY_KEYS + [MUS_UNIT_ID];
    assert forall i | 0 <= i < |BODY_KEYS| :: keys[i] == BODY_KEYS[i];
    assert keys[|BODY_KEYS|] == MUS_UNIT_ID;
  }

  /** Every field is wholly absent or free of `undefined`, and a unit id, if there is one, is truthy. */
  predicate Survives(body: Json) {
    && (forall i | 0 <= i < |BODY_KEYS| ::
          Get(body, BODY_KEYS[i]).Undef? || Defined(Get(body, BODY_KEYS[i])))
    && (body.Obj? && MUS_UNIT_ID in Keys(body.members) ==> HasUnit(body) && Defined(Get(body, MUS_UNIT_ID)))
  }

  lemma TruthyStored(v: Json)
    ensures Truthy(Stored(v)) == Truthy(v)
  {
  }

  /** A field comes back as storage leaves it. */
  lemma FieldOfStored(p: Platform, key: Text, body: Json, k: Text)
    requires BodyShape(body) && (k in KeySet(BODY_KEYS) || k == MUS_UNIT_ID)
    ensures var r := Stored(SignReceiptBody(p, key, body));
      && Get(r, k) == Stored(Get(body, k))
      && (k in Keys(Body(r).members) ==> Get(Body(r), k) == Stored(Get(body, k)))
  {
    BodyKeySet();
    SignedSpec(p, key, body, k);
    StoredGet(SignReceiptBody(p, key, body), k);
    BodySpec(Stored(SignReceiptBody(p, key, body)), k);
  }

  /** The body reconstructed from a stored receipt is like the signed body exactly when the body survives. */
  lemma BodyOfStored(p: Platform, key: Text, body: Json)
    requires BodyShape(body)
    ensures Alike(Body(Stored(SignReceiptBody(p, key, body))), body) <==> Survives(body)
  {
    var r := Stored(SignReceiptBody(p, key, body));
    BodySpec(r, MUS_UNIT_ID);
    forall k | k in Keys(Body(r).members) ensures Get(Body(r), k) == Stored(Get(body, k)) {
      FieldOfStored(p, key, body, k);
    }
    FieldOfStored(p, key, body, MUS_UNIT_ID);
    TruthyStored(Get(body, MUS_UNIT_ID));
    BackAlike(Body(r), body);
  }

  lemma BackAlike(back: Json, body: Json)
    requires back.Obj? && Distinct(back.members) && BodyShape(body)
    requires Keys(back.members) == KeySet(BODY_KEYS) + if HasUnit(body) then {MUS_UNIT_ID} else {}
    requires forall k | k in Keys(back.members) :: Get(back, k) == Stored(Get(body, k))
    ensures Alike(back, body) <==> Survives(body)
  {
    BodyKeySet();
    if MUS_UNIT_ID !in Keys(body.members) {
      LookupAbsent(body.members, MUS_UNIT_ID);
    }
    assert Keys(back.members) == Keys(body.members)
      <==> (MUS_UNIT_ID in Keys(body.members) ==> HasUnit(body));
    AlikeFields(back, body);
  }

  /** Field by field: each comes back alike exactly when it is absent or free of `undefined`. */
  lemma AlikeFields(back: Json, body: Json)
    requires back.Obj? && Distinct(back.members) && BodyShape(body)
    requires KeySet(BODY_KEYS) <= Keys(back.members) <= KeySet(BODY_KEYS) + {MUS_UNIT_ID}
    requires forall k | k in Keys(back.members) :: Get(back, k) == Stored(Get(body, k))
    ensures Alike(back, body) <==>
      && Keys(back.members) == Keys(body.members)
      && forall k | k in Keys(back.members) :: Get(body, k).Undef? || Defined(Get(body, k))
  {
    var x, y := SqueezedMembers(back.members), SqueezedMembers(body.members);
    forall k | k in Keys(back.members)
      ensures Same(Lookup(x, k), Lookup(y, k)) <==> Get(body, k).Undef? || Defined(Get(body, k))
    {
      SqueezedLookup(back.members, k);
      SqueezedLookup(body.members, k);
      ProperGet(body, k);
      if !Get(body, k).Undef? {
        StoredAlikeIffDefined(Get(body, k));
      }
    }
    AlikeObjects(back.members, body.members);
  }

  lemma AlikeKeys(ms: seq<Member<Json>>, ns: seq<Member<Json>>)
    requires Alike(Obj(ms), Obj(ns))
    ensures Keys(ms) == Keys(ns)
  {
    KeysEqual(SqueezedMembers(ms), ms);
    KeysEqual(SqueezedMembers(ns), ns);
  }

  lemma AlikeObjects(ms: seq<Member<Json>>, ns: seq<Member<Json>>)
    requires Distinct(ms)
    ensures var x, y := SqueezedMembers(ms), SqueezedMembers(ns);
      Alike(Obj(ms), Obj(ns)) <==> Keys(ms) == Keys(ns) && forall k | k in Keys(ms) :: Same(Lookup(x, k), Lookup(y, k))
  {
    KeysEqual(SqueezedMembers(ms), ms);
    KeysEqual(SqueezedMembers(ns), ns);
    SameObjects(SqueezedMembers(ms), SqueezedMembers(ns));
  }

  /** The hash and signature of a stored receipt recompute exactly when its body survives storage. */
  lemma StoredPayloadRecomputes(p: Platform, key: Text, body: Json)
    requires BodyShape(body)
    ensures Payload(Stored(SignReceiptBody(p, key, body))) == Legacy(body) <==> Survives(body)
  {
    var signed := SignReceiptBody(p, key, body);
    SignedSpec(p, key, body, RECEIPT_ID);
    StoredProper(signed);
    BodySpec(Stored(signed), RECEIPT_ID);
    BodyOfStored(p, key, body);
    UnitKeysOk(Body(Stored(signed)));
    UnitKeysOk(body);
    CanonicalTextIdentifiesValue(ByUnit, Body(Stored(signed)), body);
  }
}
