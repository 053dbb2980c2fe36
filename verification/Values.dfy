/** JSON values as the receipt engine holds them in memory. */
module Values {
  import opened Unicode

  datatype Option<+T> = None | Some(value: T)

  lemma Assoc<T>(a: seq<T>, b: seq<T>, c: seq<T>)
    ensures a + b + c == a + (b + c)
  {
  }

  /** Errors thrown by the strict canonicalizer and the coherence assessment. */
  datatype ErrorCode =
    | MALFORMED_UNICODE
    | UNSAFE_NUMBER
    | UNSUPPORTED_JSON_VALUE
    | UNDEFINED_VALUE
    | CHAIN_REQUIRED
    | METADATA_REQUIRED
    | RECORD_ID_REQUIRED
    | CREATED_AT_REQUIRED
    | VERIFIER_VERSION_REQUIRED

  datatype Result<+T> = Ok(value: T) | Err(code: ErrorCode)

  datatype Member<+T> = Member(key: Text, value: T)

  /** `Undef` is the JavaScript value `undefined`: what reading an absent member yields. */
  datatype Json =
    | Undef
    | Null
    | Bool(b: bool)
    | Num(n: int)
    | Str(s: Text)
    | Arr(items: seq<Json>)
    | Obj(members: seq<Member<Json>>)

  const MAX_SAFE := 0x1F_FFFF_FFFF_FFFF

  predicate SafeInteger(n: int) { -MAX_SAFE <= n <= MAX_SAFE }

  predicate Truthy(v: Json) {
    match v
    case Undef => false
    case Null => false
    case Bool(b) => b
    case Num(n) => n != 0
    case Str(s) => s != []
    case _ => true
  }

  lemma FalsyExactly(v: Json)
    ensures !Truthy(v) <==> v in {Undef, Null, Bool(false), Num(0), Str([])}
  {
  }

  /** `===`; objects and arrays are compared by identity, so values from separate parses never agree. */
  predicate StrictEq(a: Json, b: Json) {
    !a.Arr? && !a.Obj? && a == b
  }

  predicate Includes(vs: seq<Json>, v: Json) {
    exists i | 0 <= i < |vs| :: StrictEq(vs[i], v)
  }

  predicate Distinct<T>(ms: seq<Member<T>>) {
    forall i, j | 0 <= i < j < |ms| :: ms[i].key != ms[j].key
  }

  function Keys<T>(ms: seq<Member<T>>): set<Text> {
    set i | 0 <= i < |ms| :: ms[i].key
  }

  lemma KeysCons<T>(m: Member<T>, ms: seq<Member<T>>)
    ensures Keys([m] + ms) == Keys(ms) + {m.key}
  {
    var r := [m] + ms;
    forall k ensures k in Keys(r) <==> k in Keys(ms) + {m.key} {
      if k in Keys(ms) {
        var i :| 0 <= i < |ms| && ms[i].key == k;
        assert r[i + 1].key == k;
      }
      assert r[0].key == m.key;
    }
  }

  lemma KeysEqual<T, V>(ms: seq<Member<T>>, ns: seq<Member<V>>)
    requires |ms| == |ns| && forall i | 0 <= i < |ms| :: ms[i].key == ns[i].key
    ensures Keys(ms) == Keys(ns)
  {
    forall k ensures k in Keys(ms) <==> k in Keys(ns) {
      if k in Keys(ms) {
        var i :| 0 <= i < |ms| && ms[i].key == k;
        assert ns[i].key == k;
      }
      if k in Keys(ns) {
        var i :| 0 <= i < |ns| && ns[i].key == k;
        assert ms[i].key == k;
      }
    }
  }

  function Lookup(ms: seq<Member<Json>>, key: Text): Json {
    if ms == [] then Undef
    else if ms[0].key == key then ms[0].value
    else Lookup(ms[1..], key)
  }

  /** Member access, `undefined` where there is none. */
  function Get(v: Json, key: Text): Json {
    if v.Obj? then Lookup(v.members, key) else Undef
  }

  lemma {:induction false} LookupAt(ms: seq<Member<Json>>, i: nat)
    requires Distinct(ms) && i < |ms|
    ensures Lookup(ms, ms[i].key) == ms[i].value
  {
    if i > 0 {
      LookupAt(ms[1..], i - 1);
    }
  }

  lemma {:induction false} LookupAbsent(ms: seq<Member<Json>>, key: Text)
    requires key !in Keys(ms)
    ensures Lookup(ms, key) == Undef
  {
    if ms != [] {
      assert ms[0].key in Keys(ms);
      forall i | 0 <= i < |ms[1..]| ensures ms[1..][i].key in Keys(ms) {
        assert ms[1..][i] == ms[i + 1];
      }
      LookupAbsent(ms[1..], key);
    }
  }

  lemma LookupCons(m: Member<Json>, ms: seq<Member<Json>>, key: Text)
    ensures Lookup([m] + ms, key) == if m.key == key then m.value else Lookup(ms, key)
  {
    assert ([m] + ms)[1..] == ms;
  }

  lemma {:induction false} LookupConcat(ms: seq<Member<Json>>, ns: seq<Member<Json>>, key: Text)
    ensures Lookup(ms + ns, key) == if key in Keys(ms) then Lookup(ms, key) else Lookup(ns, key)
    ensures Keys(ms + ns) == Keys(ms) + Keys(ns)
  {
    if ms == [] {
      assert ms + ns == ns;
    } else {
      LookupConcat(ms[1..], ns, key);
      KeysCons(ms[0], ms[1..]);
      KeysCons(ms[0], ms[1..] + ns);
      assert ms == [ms[0]] + ms[1..] && ms + ns == [ms[0]] + (ms[1..] + ns);
      LookupCons(ms[0], ms[1..] + ns, key);
    }
  }

  lemma DistinctConcat<T>(ms: seq<Member<T>>, ns: seq<Member<T>>)
    requires Distinct(ms) && Distinct(ns) && Keys(ms) !! Keys(ns)
    ensures Distinct(ms + ns)
  {
    forall i, j | 0 <= i < |ms| && 0 <= j < |ns| ensures ms[i].key != ns[j].key {
      assert ms[i].key in Keys(ms) && ns[j].key in Keys(ns);
    }
  }

  /** A JavaScript value: the keys of every object are distinct. */
  predicate Proper(v: Json) {
    match v
    case Arr(items) => forall i | 0 <= i < |items| :: Proper(items[i])
    case Obj(ms) => Distinct(ms) && forall i | 0 <= i < |ms| :: Proper(ms[i].value)
    case _ => true
  }

  /** No `undefined` anywhere. */
  predicate Defined(v: Json) {
    match v
    case Undef => false
    case Arr(items) => forall i | 0 <= i < |items| :: Defined(items[i])
    case Obj(ms) => forall i | 0 <= i < |ms| :: Defined(ms[i].value)
    case _ => true
  }

  // ---------------------------------------------------------------- stringify and back

  /** The value `JSON.stringify` writes: `undefined` members are dropped, `undefined` elements become null. */
  function Stored(v: Json): Json
    decreases v, 1
  {
    match v
    case Arr(items) => Arr(seq(|items|, i requires 0 <= i < |items| =>
        if items[i].Undef? then Null else Stored(items[i])))
    case Obj(ms) => Obj(StoredMembers(ms))
    case _ => v
  }

  function StoredMembers(ms: seq<Member<Json>>): seq<Member<Json>>
    decreases ms, 0
  {
    if ms == [] then []
    else (if ms[0].value.Undef? then [] else [Member(ms[0].key, Stored(ms[0].value))]) + StoredMembers(ms[1..])
  }

  /** Not a canonical array index: objects keep such keys in insertion order. */
  predicate NamedKey(key: Text) {
    key == [] || exists i | 0 <= i < |key| :: !(0x30 <= key[i] < 0x3A)
  }

  /** Numbers are safe integers and no key is an array index. */
  predicate Writable(v: Json) {
    match v
    case Num(n) => SafeInteger(n)
    case Arr(items) => forall i | 0 <= i < |items| :: Writable(items[i])
    case Obj(ms) => forall i | 0 <= i < |ms| :: NamedKey(ms[i].key) && Writable(ms[i].value)
    case _ => true
  }

  /** A value that JSON text carries unchanged. */
  predicate Storable(v: Json) { Proper(v) && Defined(v) && Writable(v) }

  lemma {:induction false} StoredOfDefined(v: Json)
    requires Defined(v)
    ensures Stored(v) == v
    decreases v, 1
  {
    match v
    case Arr(items) =>
      forall i | 0 <= i < |items| ensures Stored(items[i]) == items[i] { StoredOfDefined(items[i]); }
    case Obj(ms) => StoredMembersOfDefined(ms);
    case _ =>
  }

  lemma {:induction false} StoredMembersOfDefined(ms: seq<Member<Json>>)
    requires forall i | 0 <= i < |ms| :: Defined(ms[i].value)
    ensures StoredMembers(ms) == ms
    decreases ms, 0
  {
    if ms != [] {
      StoredOfDefined(ms[0].value);
      StoredMembersOfDefined(ms[1..]);
    }
  }

  /** Reading a member commutes with writing the object out. */
  lemma {:induction false} StoredLookup(ms: seq<Member<Json>>, key: Text)
    requires Distinct(ms)
    ensures Lookup(StoredMembers(ms), key) == Stored(Lookup(ms, key))
    ensures key in Keys(StoredMembers(ms)) <==> key in Keys(ms) && !Lookup(ms, key).Undef?
  {
    if ms != [] {
      var m, tail := ms[0], StoredMembers(ms[1..]);
      StoredLookup(ms[1..], key);
      KeysCons(m, ms[1..]);
      assert ms == [m] + ms[1..];
      if m.key == key {
        HeadKeyOnce(ms);
        LookupAbsent(ms[1..], key);
      }
      if m.value.Undef? {
        assert StoredMembers(ms) == tail;
      } else {
        KeysCons(Member(m.key, Stored(m.value)), tail);
        LookupCons(Member(m.key, Stored(m.value)), tail, key);
      }
    }
  }

  lemma HeadKeyOnce<T>(ms: seq<Member<T>>)
    requires ms != [] && Distinct(ms)
    ensures ms[0].key !in Keys(ms[1..])
  {
    forall i | 0 <= i < |ms[1..]| ensures ms[1..][i].key != ms[0].key {
      assert ms[1..][i] == ms[i + 1];
    }
  }

  lemma StoredGet(v: Json, key: Text)
    requires Proper(v)
    ensures Get(Stored(v), key) == Stored(Get(v, key))
  {
    if v.Obj? {
      StoredLookup(v.members, key);
    }
  }

  lemma {:induction false} StoredProper(v: Json)
    requires Proper(v)
    ensures Proper(Stored(v))
    decreases v, 1
  {
    match v
    case Arr(items) =>
      forall i | 0 <= i < |items| ensures Proper(Stored(items[i])) { StoredProper(items[i]); }
    case Obj(ms) =>
      StoredMembersDistinct(ms);
      StoredMembersProper(ms);
    case _ =>
  }

  lemma {:induction false} StoredMembersProper(ms: seq<Member<Json>>)
    requires forall i | 0 <= i < |ms| :: Proper(ms[i].value)
    ensures forall m | m in StoredMembers(ms) :: Proper(m.value)
    decreases ms, 0
  {
    if ms != [] {
      StoredProper(ms[0].value);
      StoredMembersProper(ms[1..]);
    }
  }

  /** What is written out is storable. */
  lemma {:induction false} StoredIsStorable(v: Json)
    requires Proper(v) && Writable(v) && !v.Undef?
    ensures Storable(Stored(v))
    decreases v, 1
  {
    match v
    case Arr(items) =>
      var r := Stored(v).items;
      forall i | 0 <= i < |r| ensures Storable(r[i]) {
        if !items[i].Undef? {
          StoredIsStorable(items[i]);
        }
      }
    case Obj(ms) =>
      StoredMembersDistinct(ms);
      StoredMembersStorable(ms);
    case _ =>
  }

  lemma {:induction false} StoredMembersStorable(ms: seq<Member<Json>>)
    requires Distinct(ms)
    requires forall i | 0 <= i < |ms| :: NamedKey(ms[i].key) && Proper(ms[i].value) && Writable(ms[i].value)
    ensures forall m | m in StoredMembers(ms) :: NamedKey(m.key) && Storable(m.value)
    decreases ms, 0
  {
    if ms != [] {
      var m, tail := ms[0], StoredMembers(ms[1..]);
      StoredMembersStorable(ms[1..]);
      if !m.value.Undef? {
        StoredIsStorable(m.value);
      }
    }
  }

  /** The same JSON value: member order does not count, at any depth. */
  ghost predicate Same(a: Json, b: Json) {
    match a
    case Arr(xs) =>
      && b.Arr? && |xs| == |b.items|
      && forall i | 0 <= i < |xs| :: Same(xs[i], b.items[i])
    case Obj(ms) =>
      && b.Obj? && Keys(ms) == Keys(b.members)
      && forall i | 0 <= i < |ms| :: Same(ms[i].value, Lookup(b.members, ms[i].key))
    case _ => a == b
  }

  lemma {:induction false} SameReflexive(v: Json)
    requires Proper(v)
    ensures Same(v, v)
  {
    match v
    case Arr(xs) =>
      forall i | 0 <= i < |xs| ensures Same(xs[i], xs[i]) { SameReflexive(xs[i]); }
    case Obj(ms) =>
      forall i | 0 <= i < |ms| ensures Same(ms[i].value, Lookup(ms, ms[i].key)) {
        LookupAt(ms, i);
        SameReflexive(ms[i].value);
      }
    case _ =>
  }

  /** Two objects are the same exactly if they have the same keys and the same value under each. */
  lemma SameObjects(ms: seq<Member<Json>>, ns: seq<Member<Json>>)
    requires Distinct(ms)
    ensures Same(Obj(ms), Obj(ns)) <==>
      Keys(ms) == Keys(ns) && forall k | k in Keys(ms) :: Same(Lookup(ms, k), Lookup(ns, k))
  {
    forall i | 0 <= i < |ms| ensures ms[i].value == Lookup(ms, ms[i].key) && ms[i].key in Keys(ms) {
      LookupAt(ms, i);
    }
    if Same(Obj(ms), Obj(ns)) {
      forall k | k in Keys(ms) ensures Same(Lookup(ms, k), Lookup(ns, k)) {
        var i :| 0 <= i < |ms| && ms[i].key == k;
        assert Same(ms[i].value, Lookup(ns, k));
      }
    }
  }

  /** Reading a member of two same values gives same values. */
  lemma {:induction false} SameGet(a: Json, b: Json, key: Text)
    requires Same(a, b) && Proper(a)
    ensures Same(Get(a, key), Get(b, key))
  {
    if a.Obj? {
      if key in Keys(a.members) {
        var i :| 0 <= i < |a.members| && a.members[i].key == key;
        LookupAt(a.members, i);
      } else {
        LookupAbsent(a.members, key);
        LookupAbsent(b.members, key);
      }
    }
  }

  lemma {:induction false} WritableLookup(ms: seq<Member<Json>>, key: Text)
    requires forall i | 0 <= i < |ms| :: Writable(ms[i].value)
    ensures Writable(Lookup(ms, key))
  {
    if ms != [] {
      WritableLookup(ms[1..], key);
    }
  }

  lemma {:induction false} ProperLookup(ms: seq<Member<Json>>, key: Text)
    requires forall i | 0 <= i < |ms| :: Proper(ms[i].value)
    ensures Proper(Lookup(ms, key))
  {
    if ms != [] {
      ProperLookup(ms[1..], key);
    }
  }

  // ---------------------------------------------------------------- the lone undefined element

  /** No array whose only element is `undefined`, at any depth. */
  predicate Dense(v: Json) {
    match v
    case Arr(items) => items != [Undef] && forall i | 0 <= i < |items| :: Dense(items[i])
    case Obj(ms) => forall i | 0 <= i < |ms| :: Dense(ms[i].value)
    case _ => true
  }

  /** The value with every such array emptied. */
  function Squeezed(v: Json): Json
    decreases v, 1
  {
    match v
    case Arr(items) => Arr(if items == [Undef] then [] else SqueezedItems(items))
    case Obj(ms) => Obj(SqueezedMembers(ms))
    case _ => v
  }

  function SqueezedItems(items: seq<Json>): (r: seq<Json>)
    ensures |r| == |items| && forall i | 0 <= i < |items| :: r[i] == Squeezed(items[i])
    decreases items, 0
  {
    if items == [] then [] else [Squeezed(items[0])] + SqueezedItems(items[1..])
  }

  function SqueezedMembers(ms: seq<Member<Json>>): (r: seq<Member<Json>>)
    ensures |r| == |ms| && forall i | 0 <= i < |ms| :: r[i] == Member(ms[i].key, Squeezed(ms[i].value))
    decreases ms, 0
  {
    if ms == [] then [] else [Member(ms[0].key, Squeezed(ms[0].value))] + SqueezedMembers(ms[1..])
  }

  /** The same JSON value, but for arrays whose only element is `undefined`: they count as empty. */
  ghost predicate Alike(a: Json, b: Json) {
    Same(Squeezed(a), Squeezed(b))
  }

  lemma {:induction false} SqueezedLookup(ms: seq<Member<Json>>, key: Text)
    ensures Lookup(SqueezedMembers(ms), key) == Squeezed(Lookup(ms, key))
    ensures Keys(SqueezedMembers(ms)) == Keys(ms)
  {
    KeysEqual(SqueezedMembers(ms), ms);
    if ms != [] {
      SqueezedLookup(ms[1..], key);
      assert SqueezedMembers(ms)[1..] == SqueezedMembers(ms[1..]);
    }
  }

  lemma SqueezedGet(v: Json, key: Text)
    ensures Get(Squeezed(v), key) == Squeezed(Get(v, key))
  {
    if v.Obj? {
      SqueezedLookup(v.members, key);
    }
  }

  lemma {:induction false} SqueezedProper(v: Json)
    requires Proper(v)
    ensures Proper(Squeezed(v))
  {
    match v
    case Arr(items) =>
      forall i | 0 <= i < |items| ensures Proper(SqueezedItems(items)[i]) { SqueezedProper(items[i]); }
    case Obj(ms) =>
      forall i | 0 <= i < |ms| ensures Proper(SqueezedMembers(ms)[i].value) { SqueezedProper(ms[i].value); }
    case _ =>
  }

  lemma {:induction false} SqueezedOfDense(v: Json)
    requires Dense(v)
    ensures Squeezed(v) == v
  {
    match v
    case Arr(items) =>
      forall i | 0 <= i < |items| ensures SqueezedItems(items)[i] == items[i] { SqueezedOfDense(items[i]); }
    case Obj(ms) =>
      forall i | 0 <= i < |ms| ensures SqueezedMembers(ms)[i] == ms[i] { SqueezedOfDense(ms[i].value); }
    case _ =>
  }

  /** Emptying those arrays leaves the same value exactly where there are none. */
  lemma {:induction false} SqueezedSameExactly(v: Json)
    requires Proper(v)
    ensures Same(v, Squeezed(v)) <==> Dense(v)
  {
    if Dense(v) {
      SqueezedOfDense(v);
      SameReflexive(v);
    } else {
      match v
      case Arr(items) =>
        if items != [Undef] {
          var k :| 0 <= k < |items| && !Dense(items[k]);
          SqueezedSameExactly(items[k]);
          assert SqueezedItems(items)[k] == Squeezed(items[k]);
        }
      case Obj(ms) =>
        var k :| 0 <= k < |ms| && !Dense(ms[k].value);
        SqueezedSameExactly(ms[k].value);
        SqueezedLookup(ms, ms[k].key);
        LookupAt(ms, k);
    }
  }

  lemma {:induction false} DefinedIsDense(v: Json)
    requires Defined(v)
    ensures Dense(v)
  {
    match v
    case Arr(items) =>
      forall i | 0 <= i < |items| ensures Dense(items[i]) { DefinedIsDense(items[i]); }
      assert items == [Undef] ==> !Defined(items[0]);
    case Obj(ms) =>
      forall i | 0 <= i < |ms| ensures Dense(ms[i].value) { DefinedIsDense(ms[i].value); }
    case _ =>
  }

  lemma {:induction false} DenseLookup(ms: seq<Member<Json>>, key: Text)
    requires forall i | 0 <= i < |ms| :: Dense(ms[i].value)
    ensures Dense(Lookup(ms, key))
  {
    if ms != [] {
      DenseLookup(ms[1..], key);
    }
  }

  lemma DenseGet(v: Json, key: Text)
    requires Dense(v)
    ensures Dense(Get(v, key))
  {
    if v.Obj? {
      DenseLookup(v.members, key);
    }
  }

  lemma {:induction false} StoredDense(v: Json)
    ensures Dense(Stored(v)) && (Stored(v).Undef? <==> v.Undef?)
    decreases v, 1
  {
    match v
    case Arr(items) =>
      var r := Stored(v).items;
      forall i | 0 <= i < |r| ensures Dense(r[i]) && !r[i].Undef? { StoredDense(items[i]); }
      assert |r| == 1 ==> r[0] != Undef;
    case Obj(ms) => StoredMembersDense(ms);
    case _ =>
  }

  lemma {:induction false} StoredMembersDense(ms: seq<Member<Json>>)
    ensures forall m | m in StoredMembers(ms) :: Dense(m.value)
    decreases ms, 0
  {
    if ms != [] {
      StoredDense(ms[0].value);
      StoredMembersDense(ms[1..]);
    }
  }

  /** A value survives being written out and read back exactly when there is no `undefined` in it. */
  lemma {:induction false} StoredAlikeIffDefined(v: Json)
    requires Proper(v) && !v.Undef?
    ensures Same(Stored(v), Squeezed(v)) <==> Defined(v)
    ensures Alike(Stored(v), v) <==> Defined(v)
  {
    StoredDense(v);
    SqueezedOfDense(Stored(v));
    match v
    case Arr(items) =>
      forall i | 0 <= i < |items| && !items[i].Undef?
        ensures Same(Stored(items[i]), Squeezed(items[i])) <==> Defined(items[i])
      {
        StoredAlikeIffDefined(items[i]);
      }
      StoredItemsAlike(items);
    case Obj(ms) => StoredMembersAlike(ms);
    case _ =>
  }

  lemma StoredItemAt(items: seq<Json>, i: nat)
    requires i < |items|
    ensures |Stored(Arr(items)).items| == |items|
    ensures Stored(Arr(items)).items[i] == if items[i].Undef? then Null else Stored(items[i])
  {
  }

  lemma StoredItemsAlike(items: seq<Json>)
    requires forall i | 0 <= i < |items| && !items[i].Undef? ::
      Same(Stored(items[i]), Squeezed(items[i])) <==> Defined(items[i])
    ensures Same(Stored(Arr(items)), Squeezed(Arr(items))) <==> Defined(Arr(items))
  {
    var r := Stored(Arr(items)).items;
    if items == [Undef] {
      StoredItemAt(items, 0);
      assert !Defined(items[0]);
    } else {
      var s := SqueezedItems(items);
      forall i | 0 <= i < |items| ensures |r| == |items| && (Same(r[i], s[i]) <==> Defined(items[i])) {
        StoredItemAt(items, i);
      }
      assert Squeezed(Arr(items)) == Arr(s);
    }
  }

  lemma {:induction false} StoredMembersAlike(ms: seq<Member<Json>>)
    requires Proper(Obj(ms))
    ensures Same(Stored(Obj(ms)), Squeezed(Obj(ms))) <==> Defined(Obj(ms))
  {
    if Defined(Obj(ms)) {
      StoredOfDefined(Obj(ms));
      DefinedIsDense(Obj(ms));
      SqueezedOfDense(Obj(ms));
      SameReflexive(Obj(ms));
    }
    if Same(Stored(Obj(ms)), Squeezed(Obj(ms))) {
      var r := StoredMembers(ms);
      forall i | 0 <= i < |ms| ensures Defined(ms[i].value) {
        StoredLookup(ms, ms[i].key);
        SqueezedLookup(ms, ms[i].key);
        LookupAt(ms, i);
        assert ms[i].key in Keys(ms);
        var j :| 0 <= j < |r| && r[j].key == ms[i].key;
        StoredMembersDistinct(ms);
        LookupAt(r, j);
        StoredAlikeIffDefined(ms[i].value);
      }
    }
  }

  lemma {:induction false} StoredMembersDistinct(ms: seq<Member<Json>>)
    requires Distinct(ms)
    ensures Distinct(StoredMembers(ms)) && Keys(StoredMembers(ms)) <= Keys(ms)
  {
    if ms != [] {
      StoredMembersDistinct(ms[1..]);
      HeadKeyOnce(ms);
      KeysCons(ms[0], ms[1..]);
      assert ms == [ms[0]] + ms[1..];
      KeysCons(Member(ms[0].key, Stored(ms[0].value)), StoredMembers(ms[1..]));
    }
  }

  /** Same values are equally truthy, and where one is no object or array they are equal. */
  lemma SameScalars(a: Json, b: Json)
    requires Same(a, b)
    ensures Truthy(a) == Truthy(b)
    ensures !a.Arr? && !a.Obj? ==> a == b
    ensures a.Undef? <==> b.Undef?
  {
  }
}
