/** The self-excluding hash that seals an assessment record. */
module Seal {
  import opened Unicode
  import opened Values
  import opened Canonical
  import opened StrictCanonical
  import opened Platform
  import opened HashChain

  const CHAIN: Text := U("chain")
  const RECORD_HASH: Text := U("record_hash")

  /** A copy of a JSON value, filled item by item and member by member. */
  method DeepCloneJson(value: Json) returns (clone: Json)
    ensures clone == value
    decreases value
  {
    match value
    case Arr(items) =>
      var copies: seq<Json> := [];
      for i := 0 to |items|
        invariant copies == items[..i]
      {
        var copy := DeepCloneJson(items[i]);
        copies := copies + [copy];
      }
      return Arr(copies);
    case Obj(ms) =>
      var copies: seq<Member<Json>> := [];
      for i := 0 to |ms|
        invariant copies == ms[..i]
      {
        var copy := DeepCloneJson(ms[i].value);
        copies := copies + [Member(ms[i].key, copy)];
      }
      return Obj(copies);
    case _ => return value;
  }

  /** `delete`: the members without a key. */
  function Without(ms: seq<Member<Json>>, key: Text): seq<Member<Json>> {
    if ms == [] then []
    else (if ms[0].key == key then [] else [ms[0]]) + Without(ms[1..], key)
  }

  /** Assignment to a member: in place if it is there, at the end if not. */
  function With(ms: seq<Member<Json>>, key: Text, value: Json): seq<Member<Json>> {
    if ms == [] then [Member(key, value)]
    else if ms[0].key == key then [Member(key, value)] + ms[1..]
    else [ms[0]] + With(ms[1..], key, value)
  }

  predicate HasChain(record: Json) {
    record.Obj? && Get(record, CHAIN).Obj?
  }

  /** The record without its own hash. */
  function Unsealed(record: Json): Json
    requires HasChain(record)
  {
    Obj(With(record.members, CHAIN, Obj(Without(Get(record, CHAIN).members, RECORD_HASH))))
  }

  /** The record with `hash` written into its chain. */
  function Sealed(record: Json, hash: Json): Json
    requires HasChain(record)
  {
    Obj(With(record.members, CHAIN, Obj(With(Get(record, CHAIN).members, RECORD_HASH, hash))))
  }

  function RecordHash(p: Platform, record: Json): Result<Text> {
    if !HasChain(record) then Err(CHAIN_REQUIRED)
    else
      match Strict(Unsealed(record))
      case Ok(text) => Ok(p.sha256(text))
      case Err(code) => Err(code)
  }

  method ComputeAssessmentRecordHash(p: Platform, record: Json) returns (r: Result<Text>)
    ensures r == RecordHash(p, record)
    ensures r == Err(CHAIN_REQUIRED) <==> !HasChain(record)
    ensures r.Err? && HasChain(record) ==> HasFault(Unsealed(record), r.code)
    ensures r.Ok? ==>
      && HasChain(record) && InDomain(Unsealed(record))
      && r.value == p.sha256(Canon(ByUtf8, Unsealed(record)))
  {
    var projection := DeepCloneJson(record);
    if !HasChain(projection) {
      return Err(CHAIN_REQUIRED);
    }
    projection := Unsealed(projection);
    StrictExact(projection);
    match Strict(projection)
    case Ok(text) => return Ok(p.sha256(text));
    case Err(code) =>
      FaultCodes(projection, code);
      return Err(code);
  }

  lemma {:induction false} WithLookup(ms: seq<Member<Json>>, key: Text, value: Json, other: Text)
    ensures Lookup(With(ms, key, value), other) == if other == key then value else Lookup(ms, other)
    ensures Keys(With(ms, key, value)) == Keys(ms) + {key}
  {
    if ms == [] {
      KeysCons(Member(key, value), []);
      LookupCons(Member(key, value), [], other);
      assert [Member(key, value)] + [] == [Member(key, value)];
    } else {
      assert ms == [ms[0]] + ms[1..];
      KeysCons(ms[0], ms[1..]);
      if ms[0].key == key {
        LookupCons(Member(key, value), ms[1..], other);
        KeysCons(Member(key, value), ms[1..]);
      } else {
        WithLookup(ms[1..], key, value, other);
        LookupCons(ms[0], With(ms[1..], key, value), other);
        KeysCons(ms[0], With(ms[1..], key, value));
      }
    }
  }

  lemma {:induction false} WithWith(ms: seq<Member<Json>>, key: Text, a: Json, b: Json)
    ensures With(With(ms, key, a), key, b) == With(ms, key, b)
  {
    if ms != [] {
      if ms[0].key == key {
        assert ([Member(key, a)] + ms[1..])[1..] == ms[1..];
      } else {
        WithWith(ms[1..], key, a, b);
        assert ([ms[0]] + With(ms[1..], key, a))[1..] == With(ms[1..], key, a);
      }
    }
  }

  lemma {:induction false} WithoutWith(ms: seq<Member<Json>>, key: Text, value: Json)
    requires Distinct(ms)
    ensures Without(With(ms, key, value), key) == Without(ms, key)
  {
    var m := Member(key, value);
    if ms == [] {
      assert [m][1..] == [];
    } else if ms[0].key == key {
      assert ([m] + ms[1..])[1..] == ms[1..];
    } else {
      WithoutWith(ms[1..], key, value);
      assert ([ms[0]] + With(ms[1..], key, value))[1..] == With(ms[1..], key, value);
    }
  }

  lemma {:induction false} WithoutLookup(ms: seq<Member<Json>>, key: Text, other: Text)
    ensures Lookup(Without(ms, key), other) == if other == key then Undef else Lookup(ms, other)
    ensures Keys(Without(ms, key)) == Keys(ms) - {key}
  {
    if ms != [] {
      assert ms == [ms[0]] + ms[1..];
      WithoutLookup(ms[1..], key, other);
      KeysCons(ms[0], ms[1..]);
      if ms[0].key == key {
        assert Without(ms, key) == Without(ms[1..], key);
      } else {
        KeysCons(ms[0], Without(ms[1..], key));
        LookupCons(ms[0], Without(ms[1..], key), other);
      }
    }
  }

  /** What is hashed is the record with every member but the record hash in its chain. */
  lemma UnsealedExactly(record: Json, key: Text)
    requires HasChain(record)
    ensures var chain, kept := Get(record, CHAIN), Get(Unsealed(record), CHAIN);
      && Keys(Unsealed(record).members) == Keys(record.members)
      && (key != CHAIN ==> Get(Unsealed(record), key) == Get(record, key))
      && kept.Obj? && Keys(kept.members) == Keys(chain.members) - {RECORD_HASH}
      && (key != RECORD_HASH ==> Get(kept, key) == Get(chain, key))
  {
    var chain := Get(record, CHAIN);
    WithLookup(record.members, CHAIN, Obj(Without(chain.members, RECORD_HASH)), key);
    WithLookup(record.members, CHAIN, Obj(Without(chain.members, RECORD_HASH)), CHAIN);
    WithoutLookup(chain.members, RECORD_HASH, key);
    ChainNamed(record);
  }

  lemma ChainNamed(record: Json)
    requires HasChain(record)
    ensures CHAIN in Keys(record.members)
  {
    if CHAIN !in Keys(record.members) {
      LookupAbsent(record.members, CHAIN);
    }
  }

  /** Whatever hash is written into a record, what is hashed stays the same. */
  lemma UnsealedOfSealed(record: Json, hash: Json)
    requires HasChain(record) && Distinct(Get(record, CHAIN).members)
    ensures HasChain(Sealed(record, hash))
    ensures Unsealed(Sealed(record, hash)) == Unsealed(record)
    ensures Get(Get(Sealed(record, hash), CHAIN), RECORD_HASH) == hash
  {
    var ms, chain := record.members, Get(record, CHAIN);
    var inner := Obj(With(chain.members, RECORD_HASH, hash));
    WithLookup(ms, CHAIN, inner, CHAIN);
    WithLookup(chain.members, RECORD_HASH, hash, RECORD_HASH);
    WithoutWith(chain.members, RECORD_HASH, hash);
    WithWith(ms, CHAIN, inner, Obj(Without(chain.members, RECORD_HASH)));
  }

  /** The seal: a record carrying the hash of its unsealed form recomputes to that very hash, and no value
      written in its place changes the recomputation. */
  lemma SealRecomputes(p: Platform, record: Json, hash: Text, other: Json)
    requires HasChain(record) && Distinct(Get(record, CHAIN).members) && RecordHash(p, record) == Ok(hash)
    ensures var sealed := Sealed(record, Str(hash));
      && RecordHash(p, sealed) == Ok(hash)
      && Get(Get(sealed, CHAIN), RECORD_HASH) == Str(hash)
    ensures RecordHash(p, Sealed(record, other)) == Ok(hash)
  {
    UnsealedOfSealed(record, Str(hash));
    UnsealedOfSealed(record, other);
  }

  lemma {:induction false} WithoutDistinct(ms: seq<Member<Json>>, key: Text)
    requires Distinct(ms)
    ensures Distinct(Without(ms, key)) && Keys(Without(ms, key)) <= Keys(ms)
  {
    if ms != [] {
      WithoutDistinct(ms[1..], key);
      HeadKeyOnce(ms);
      KeysCons(ms[0], ms[1..]);
      KeysCons(ms[0], Without(ms[1..], key));
      assert ms == [ms[0]] + ms[1..];
      if ms[0].key == key {
        assert Without(ms, key) == Without(ms[1..], key);
      } else {
        DistinctCons(ms[0], Without(ms[1..], key));
      }
    }
  }

  lemma {:induction false} WithoutProper(ms: seq<Member<Json>>, key: Text)
    requires forall i | 0 <= i < |ms| :: Proper(ms[i].value)
    ensures forall m | m in Without(ms, key) :: Proper(m.value)
  {
    if ms != [] {
      WithoutProper(ms[1..], key);
    }
  }

  lemma {:induction false} WithProper(ms: seq<Member<Json>>, key: Text, value: Json)
    requires Distinct(ms) && Proper(value) && forall i | 0 <= i < |ms| :: Proper(ms[i].value)
    ensures Distinct(With(ms, key, value))
    ensures forall m | m in With(ms, key, value) :: Proper(m.value)
  {
    if ms != [] {
      HeadKeyOnce(ms);
      if ms[0].key != key {
        WithProper(ms[1..], key, value);
        WithLookup(ms[1..], key, value, key);
        DistinctCons(ms[0], With(ms[1..], key, value));
      } else {
        DistinctCons(Member(key, value), ms[1..]);
      }
    }
  }

  lemma DistinctCons<T>(m: Member<T>, ms: seq<Member<T>>)
    requires Distinct(ms) && m.key !in Keys(ms)
    ensures Distinct([m] + ms)
  {
    forall j | 0 <= j < |ms| ensures ms[j].key != m.key {
      assert ms[j].key in Keys(ms);
    }
  }

  lemma UnsealedProper(record: Json)
    requires HasChain(record) && Proper(record)
    ensures Proper(Unsealed(record))
  {
    ProperLookup(record.members, CHAIN);
    WithoutDistinct(Get(record, CHAIN).members, RECORD_HASH);
    WithoutProper(Get(record, CHAIN).members, RECORD_HASH);
    WithProper(record.members, CHAIN, Obj(Without(Get(record, CHAIN).members, RECORD_HASH)));
  }

  /** Two records with one hash are the same record up to member order and that hash, or their canonical
      texts collide. */
  lemma SealBindsRecord(p: Platform, a: Json, b: Json)
    requires Proper(a) && Proper(b)
    requires RecordHash(p, a).Ok? && RecordHash(p, a) == RecordHash(p, b)
    ensures Same(Unsealed(a), Unsealed(b))
      || Collides(p.sha256, Canon(ByUtf8, Unsealed(a)), Canon(ByUtf8, Unsealed(b)))
  {
    UnsealedProper(a);
    UnsealedProper(b);
    StrictExact(Unsealed(a));
    StrictExact(Unsealed(b));
    StrictTextIdentifiesValue(Unsealed(a), Unsealed(b));
  }
}
