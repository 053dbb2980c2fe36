/** The strict canonicalizer: which values it accepts, and how it relates to the legacy one. */
module StrictCanonical {
  import opened Unicode
  import opened Values
  import opened JsonText
  import opened Canonical

  /** The strict canonicalizer with its error branches, visiting keys in sorted order. */
  function Strict(v: Json): Result<Text>
    decreases v, 1
  {
    match v
    case Undef => Err(UNSUPPORTED_JSON_VALUE)
    case Null => Ok(NULL)
    case Bool(b) => Ok(if b then TRUE else FALSE)
    case Num(n) => if SafeInteger(n) then Ok(PrintInt(n)) else Err(UNSAFE_NUMBER)
    case Str(s) => if WellFormed(s) then Ok(Quote(s)) else Err(MALFORMED_UNICODE)
    case Arr(items) =>
      (match GatherItems(StrictItems(items))
       case Ok(ts) => Ok([LBRACKET] + Join(ts) + [RBRACKET])
       case Err(code) => Err(code))
    case Obj(ms) =>
      (match GatherMembers(Sort(ByUtf8, StrictMembers(ms)))
       case Ok(ts) => Ok([LBRACE] + Join(MemberTexts(ts)) + [RBRACE])
       case Err(code) => Err(code))
  }

  function StrictItems(items: seq<Json>): (rs: seq<Result<Text>>)
    ensures |rs| == |items|
    decreases items, 0
  {
    seq(|items|, i requires 0 <= i < |items| => Strict(items[i]))
  }

  function StrictMember(m: Member<Json>): Member<Result<Text>>
    decreases m, 2
  {
    Member(m.key, if m.value.Undef? then Err(UNDEFINED_VALUE) else Strict(m.value))
  }

  function StrictMembers(ms: seq<Member<Json>>): (rs: seq<Member<Result<Text>>>)
    ensures |rs| == |ms|
    decreases ms, 3
  {
    seq(|ms|, i requires 0 <= i < |ms| => StrictMember(ms[i]))
  }

  /** All texts, or the first error. */
  function GatherItems(rs: seq<Result<Text>>): Result<seq<Text>> {
    if rs == [] then Ok([])
    else
      match rs[0]
      case Err(code) => Err(code)
      case Ok(t) =>
        match GatherItems(rs[1..])
        case Err(code) => Err(code)
        case Ok(ts) => Ok([t] + ts)
  }

  function GatherMembers(rs: seq<Member<Result<Text>>>): Result<seq<Member<Text>>> {
    if rs == [] then Ok([])
    else if !WellFormed(rs[0].key) then Err(MALFORMED_UNICODE)
    else
      match rs[0].value
      case Err(code) => Err(code)
      case Ok(t) =>
        match GatherMembers(rs[1..])
        case Err(code) => Err(code)
        case Ok(ts) => Ok([Member(rs[0].key, t)] + ts)
  }

  /** Trees of well-formed strings, safe integers, booleans and nulls. */
  predicate InDomain(v: Json) {
    match v
    case Undef => false
    case Num(n) => SafeInteger(n)
    case Str(s) => WellFormed(s)
    case Arr(items) => forall i | 0 <= i < |items| :: InDomain(items[i])
    case Obj(ms) => forall i | 0 <= i < |ms| :: WellFormed(ms[i].key) && InDomain(ms[i].value)
    case _ => true
  }

  /** Somewhere in the value stands what the error code names. */
  predicate HasFault(v: Json, code: ErrorCode) {
    match v
    case Undef => code == UNSUPPORTED_JSON_VALUE
    case Num(n) => code == UNSAFE_NUMBER && !SafeInteger(n)
    case Str(s) => code == MALFORMED_UNICODE && !WellFormed(s)
    case Arr(items) => exists i | 0 <= i < |items| :: HasFault(items[i], code)
    case Obj(ms) =>
      exists i | 0 <= i < |ms| ::
        || (code == MALFORMED_UNICODE && !WellFormed(ms[i].key))
        || (code == UNDEFINED_VALUE && ms[i].value.Undef?)
        || (!ms[i].value.Undef? && HasFault(ms[i].value, code))
    case _ => false
  }

  function Force(r: Result<Text>): Text {
    if r.Ok? then r.value else []
  }

  function ForceAll(rs: seq<Result<Text>>): seq<Text> {
    seq(|rs|, i requires 0 <= i < |rs| => Force(rs[i]))
  }

  lemma {:induction false} GatherItemsSpec(rs: seq<Result<Text>>)
    ensures (forall i | 0 <= i < |rs| :: rs[i].Ok?) ==> GatherItems(rs) == Ok(ForceAll(rs))
    ensures GatherItems(rs).Err? ==> exists i | 0 <= i < |rs| :: rs[i] == Err(GatherItems(rs).code)
    ensures GatherItems(rs).Ok? ==> forall i | 0 <= i < |rs| :: rs[i].Ok?
  {
    if rs != [] {
      GatherItemsSpec(rs[1..]);
      assert rs == [rs[0]] + rs[1..];
      assert ForceAll(rs) == [Force(rs[0])] + ForceAll(rs[1..]);
    } else {
      assert ForceAll(rs) == [];
    }
  }

  predicate Clean(r: Member<Result<Text>>) {
    WellFormed(r.key) && r.value.Ok?
  }

  predicate Blames(r: Member<Result<Text>>, code: ErrorCode) {
    r.value == Err(code) || (code == MALFORMED_UNICODE && !WellFormed(r.key))
  }

  lemma {:induction false} GatherMembersSpec(rs: seq<Member<Result<Text>>>)
    ensures (forall i | 0 <= i < |rs| :: Clean(rs[i])) ==> GatherMembers(rs) == Ok(MapValues(Force, rs))
    ensures GatherMembers(rs).Err? ==> exists i | 0 <= i < |rs| :: Blames(rs[i], GatherMembers(rs).code)
    ensures GatherMembers(rs).Ok? ==> forall i | 0 <= i < |rs| :: Clean(rs[i])
  {
    if rs != [] {
      GatherMembersSpec(rs[1..]);
      assert rs == [rs[0]] + rs[1..];
      assert MapValues(Force, rs) == [Member(rs[0].key, Force(rs[0].value))] + MapValues(Force, rs[1..]);
    }
  }

  lemma GatherSorted(rs: seq<Member<Result<Text>>>)
    ensures (forall i | 0 <= i < |rs| :: Clean(rs[i]))
      ==> GatherMembers(Sort(ByUtf8, rs)) == Ok(Sort(ByUtf8, MapValues(Force, rs)))
    ensures GatherMembers(Sort(ByUtf8, rs)).Err?
      ==> exists i | 0 <= i < |rs| :: Blames(rs[i], GatherMembers(Sort(ByUtf8, rs)).code)
    ensures GatherMembers(Sort(ByUtf8, rs)).Ok? ==> forall i | 0 <= i < |rs| :: Clean(rs[i])
  {
    var sorted := Sort(ByUtf8, rs);
    GatherMembersSpec(sorted);
    SortMap(ByUtf8, Force, rs);
    forall i | 0 <= i < |rs| ensures rs[i] in sorted {
      SortMembership(ByUtf8, rs, rs[i]);
    }
    forall i | 0 <= i < |sorted| ensures sorted[i] in rs {
      SortMembership(ByUtf8, rs, sorted[i]);
    }
  }

  /** What is to be shown of the strict canonicalizer, for one value. */
  ghost predicate Exact(v: Json) {
    match Strict(v)
    case Ok(text) => InDomain(v) && text == Canon(ByUtf8, v)
    case Err(code) => !InDomain(v) && HasFault(v, code)
  }

  lemma ExactItems(items: seq<Json>)
    requires forall i | 0 <= i < |items| :: Exact(items[i])
    ensures Exact(Arr(items))
  {
    var rs := StrictItems(items);
    GatherItemsSpec(rs);
    assert forall i | 0 <= i < |items| :: rs[i] == Strict(items[i]);
    if forall i | 0 <= i < |items| :: InDomain(items[i]) {
      assert ForceAll(rs) == CanonItems(ByUtf8, items);
    }
  }

  lemma ExactMember(m: Member<Json>)
    requires Exact(m.value)
    ensures var r := StrictMember(m);
      && (Clean(r) <==> WellFormed(m.key) && InDomain(m.value))
      && (Clean(r) ==> Force(r.value) == Canon(ByUtf8, m.value))
  {
  }

  lemma ExactMembers(ms: seq<Member<Json>>)
    requires forall i | 0 <= i < |ms| :: Exact(ms[i].value)
    ensures Exact(Obj(ms))
  {
    var rs := StrictMembers(ms);
    GatherSorted(rs);
    forall i | 0 <= i < |ms|
      ensures rs[i] == StrictMember(ms[i])
      ensures Clean(rs[i]) <==> WellFormed(ms[i].key) && InDomain(ms[i].value)
      ensures Clean(rs[i]) ==> Force(rs[i].value) == Canon(ByUtf8, ms[i].value)
    {
      ExactMember(ms[i]);
    }
    if forall i | 0 <= i < |ms| :: Clean(rs[i]) {
      assert MapValues(Force, rs) == CanonMembers(ByUtf8, ms);
    }
  }

  /** Strict canonicalization succeeds exactly on its domain, returns the canonical text there, and
      elsewhere names a fault that the value really has. */
  lemma {:induction false} StrictExact(v: Json)
    ensures Exact(v)
  {
    match v
    case Arr(items) =>
      forall i | 0 <= i < |items| ensures Exact(items[i]) {
        StrictExact(items[i]);
      }
      ExactItems(items);
    case Obj(ms) =>
      forall i | 0 <= i < |ms| ensures Exact(ms[i].value) {
        StrictExact(ms[i].value);
      }
      ExactMembers(ms);
    case _ =>
  }

  lemma {:induction false} FaultCodes(v: Json, code: ErrorCode)
    requires HasFault(v, code)
    ensures code in {MALFORMED_UNICODE, UNSAFE_NUMBER, UNSUPPORTED_JSON_VALUE, UNDEFINED_VALUE}
  {
    match v
    case Arr(items) =>
      var i :| 0 <= i < |items| && HasFault(items[i], code);
      FaultCodes(items[i], code);
    case Obj(ms) =>
      if i :| 0 <= i < |ms| && !ms[i].value.Undef? && HasFault(ms[i].value, code) {
        FaultCodes(ms[i].value, code);
      }
    case _ =>
  }

  // ---------------------------------------------------------------- which error comes first

  /** Every fault of a value, in the order in which its text would be written. */
  function Faults(v: Json): seq<ErrorCode>
    decreases v, 1
  {
    match v
    case Undef => [UNSUPPORTED_JSON_VALUE]
    case Num(n) => if SafeInteger(n) then [] else [UNSAFE_NUMBER]
    case Str(s) => if WellFormed(s) then [] else [MALFORMED_UNICODE]
    case Arr(items) => FaultsOfItems(items)
    case Obj(ms) => PooledFaults(Sort(ByUtf8, FaultMembers(ms)))
    case _ => []
  }

  function FaultsOfItems(items: seq<Json>): seq<ErrorCode>
    decreases items, 0
  {
    if items == [] then [] else Faults(items[0]) + FaultsOfItems(items[1..])
  }

  function FaultMember(m: Member<Json>): Member<seq<ErrorCode>>
    decreases m, 2
  {
    Member(m.key, if m.value.Undef? then [UNDEFINED_VALUE] else Faults(m.value))
  }

  function FaultMembers(ms: seq<Member<Json>>): (fs: seq<Member<seq<ErrorCode>>>)
    ensures |fs| == |ms|
    decreases ms, 3
  {
    seq(|ms|, i requires 0 <= i < |ms| => FaultMember(ms[i]))
  }

  /** A member's key comes before its value. */
  function PooledFaults(fs: seq<Member<seq<ErrorCode>>>): seq<ErrorCode> {
    if fs == [] then []
    else (if WellFormed(fs[0].key) then [] else [MALFORMED_UNICODE]) + fs[0].value + PooledFaults(fs[1..])
  }

  function CodeOf(r: Result<Text>): Option<ErrorCode> {
    if r.Err? then Some(r.code) else None
  }

  function FirstOf(codes: seq<ErrorCode>): Option<ErrorCode> {
    if codes == [] then None else Some(codes[0])
  }

  /** The error on a value is its first fault. */
  predicate BlamesFirst(v: Json) {
    CodeOf(Strict(v)) == FirstOf(Faults(v))
  }

  lemma {:induction false} GatherItemsFirst(items: seq<Json>)
    requires forall i | 0 <= i < |items| :: BlamesFirst(items[i])
    ensures var r := GatherItems(StrictItems(items));
      if r.Err? then FirstOf(FaultsOfItems(items)) == Some(r.code) else FaultsOfItems(items) == []
  {
    if items != [] {
      GatherItemsFirst(items[1..]);
      assert StrictItems(items)[1..] == StrictItems(items[1..]);
      assert BlamesFirst(items[0]);
    }
  }

  lemma {:induction false} GatherMembersFirst(rs: seq<Member<Result<Text>>>, fs: seq<Member<seq<ErrorCode>>>)
    requires MapValues(CodeOf, rs) == MapValues(FirstOf, fs)
    ensures var r := GatherMembers(rs);
      if r.Err? then FirstOf(PooledFaults(fs)) == Some(r.code) else PooledFaults(fs) == []
  {
    assert |rs| == |fs| by {
      assert |MapValues(CodeOf, rs)| == |rs|;
    }
    if rs != [] {
      assert MapValues(CodeOf, rs)[0] == MapValues(FirstOf, fs)[0];
      assert MapValues(CodeOf, rs)[1..] == MapValues(CodeOf, rs[1..]);
      assert MapValues(FirstOf, fs)[1..] == MapValues(FirstOf, fs[1..]);
      GatherMembersFirst(rs[1..], fs[1..]);
    }
  }

  lemma MapsAgree<T, U, V>(f: T -> V, ms: seq<Member<T>>, g: U -> V, ns: seq<Member<U>>)
    requires |ms| == |ns| && forall i | 0 <= i < |ms| :: ms[i].key == ns[i].key && f(ms[i].value) == g(ns[i].value)
    ensures MapValues(f, ms) == MapValues(g, ns)
  {
  }

  lemma FirstOfMember(m: Member<Json>)
    requires BlamesFirst(m.value)
    ensures CodeOf(StrictMember(m).value) == FirstOf(FaultMember(m).value)
  {
  }

  lemma FirstOfMembers(ms: seq<Member<Json>>)
    requires forall i | 0 <= i < |ms| :: BlamesFirst(ms[i].value)
    ensures MapValues(CodeOf, StrictMembers(ms)) == MapValues(FirstOf, FaultMembers(ms))
  {
    var rs, fs := StrictMembers(ms), FaultMembers(ms);
    forall i | 0 <= i < |ms| ensures rs[i].key == fs[i].key && CodeOf(rs[i].value) == FirstOf(fs[i].value) {
      FirstOfMember(ms[i]);
      assert rs[i] == StrictMember(ms[i]) && fs[i] == FaultMember(ms[i]);
    }
    MapsAgree(CodeOf, rs, FirstOf, fs);
  }

  lemma SortedFirsts(rs: seq<Member<Result<Text>>>, fs: seq<Member<seq<ErrorCode>>>)
    requires MapValues(CodeOf, rs) == MapValues(FirstOf, fs)
    ensures MapValues(CodeOf, Sort(ByUtf8, rs)) == MapValues(FirstOf, Sort(ByUtf8, fs))
  {
    SortMap(ByUtf8, CodeOf, rs);
    SortMap(ByUtf8, FirstOf, fs);
  }

  /** The error is the first fault that writing the text would meet. */
  lemma {:induction false} StrictErrorIsFirst(v: Json)
    ensures CodeOf(Strict(v)) == FirstOf(Faults(v))
  {
    match v
    case Arr(items) =>
      forall i | 0 <= i < |items| ensures BlamesFirst(items[i]) {
        StrictErrorIsFirst(items[i]);
      }
      GatherItemsFirst(items);
    case Obj(ms) =>
      forall i | 0 <= i < |ms| ensures BlamesFirst(ms[i].value) {
        StrictErrorIsFirst(ms[i].value);
      }
      FirstOfMembers(ms);
      SortedFirsts(StrictMembers(ms), FaultMembers(ms));
      GatherMembersFirst(Sort(ByUtf8, StrictMembers(ms)), Sort(ByUtf8, FaultMembers(ms)));
    case _ =>
  }

  lemma {:induction false} DomainKeysOk(v: Json)
    requires InDomain(v)
    ensures KeysOk(ByUtf8, v)
  {
    match v
    case Arr(items) =>
      forall i | 0 <= i < |items| ensures KeysOk(ByUtf8, items[i]) { DomainKeysOk(items[i]); }
    case Obj(ms) =>
      forall i | 0 <= i < |ms| ensures KeysOk(ByUtf8, ms[i].value) { DomainKeysOk(ms[i].value); }
    case _ =>
  }

  lemma {:induction false} DomainDefined(v: Json)
    requires InDomain(v)
    ensures Defined(v)
  {
    match v
    case Arr(items) =>
      forall i | 0 <= i < |items| ensures Defined(items[i]) { DomainDefined(items[i]); }
    case Obj(ms) =>
      forall i | 0 <= i < |ms| ensures Defined(ms[i].value) { DomainDefined(ms[i].value); }
    case _ =>
  }

  lemma DomainDense(v: Json)
    requires InDomain(v)
    ensures Squeezed(v) == v
  {
    DomainDefined(v);
    DefinedIsDense(v);
    SqueezedOfDense(v);
  }

  /** Of two values the strict canonicalizer accepts, the texts agree exactly when the values do. */
  lemma StrictTextIdentifiesValue(a: Json, b: Json)
    requires Proper(a) && Proper(b) && Strict(a).Ok? && Strict(b).Ok?
    ensures Strict(a) == Strict(b) <==> Same(a, b)
  {
    StrictExact(a);
    StrictExact(b);
    DomainKeysOk(a);
    DomainKeysOk(b);
    DomainDense(a);
    DomainDense(b);
    CanonicalTextIdentifiesValue(ByUtf8, a, b);
  }

  // ---------------------------------------------------------------- strict against legacy

  /** No two keys of one object are crossed, at any depth. */
  predicate NoCrossedKeys(v: Json) {
    match v
    case Arr(items) => forall i | 0 <= i < |items| :: NoCrossedKeys(items[i])
    case Obj(ms) => Uncrossed(ms) && forall i | 0 <= i < |ms| :: NoCrossedKeys(ms[i].value)
    case _ => true
  }

  predicate Uncrossed<T>(ms: seq<Member<T>>) {
    forall i, j | 0 <= i < |ms| && 0 <= j < |ms| :: !Crossed(ms[i].key, ms[j].key)
  }

  /** On uncrossed keys the two orders agree, and on crossed ones they do not. */
  lemma OrdersAgreeExactly(a: Text, b: Text)
    requires WellFormed(a) && WellFormed(b)
    ensures (Before(ByUtf8, a, b) <==> Before(ByUnit, a, b)) <==> !Crossed(a, b)
  {
    Utf8BeforeIsCodePointOrder(a, b);
    UnitOrderExactly(a, b);
  }

  lemma SortOrdersAgree(ms: seq<Member<Json>>)
    requires Distinct(ms) && Uncrossed(ms) && forall i | 0 <= i < |ms| :: WellFormed(ms[i].key)
    ensures Sort(ByUtf8, ms) == Sort(ByUnit, ms)
  {
    var p, q := Sort(ByUtf8, ms), Sort(ByUnit, ms);
    SortSorted(ByUtf8, ms);
    SortSorted(ByUnit, ms);
    forall i, j | 0 <= i < j < |p| ensures Before(ByUnit, p[i].key, p[j].key) {
      SortMembership(ByUtf8, ms, p[i]);
      SortMembership(ByUtf8, ms, p[j]);
      OrdersAgreeExactly(p[i].key, p[j].key);
    }
    forall m ensures m in p <==> m in q {
      SortMembership(ByUtf8, ms, m);
      SortMembership(ByUnit, ms, m);
    }
    SortedUnique(ByUnit, p, q);
  }

  /** A list sorted by both orders has no crossed keys. */
  lemma SortedTwiceUncrossed(p: seq<Member<Json>>)
    requires Sorted(ByUtf8, p) && Sorted(ByUnit, p) && forall i | 0 <= i < |p| :: WellFormed(p[i].key)
    ensures Uncrossed(p)
  {
    forall i, j | 0 <= i < |p| && 0 <= j < |p| ensures !Crossed(p[i].key, p[j].key) {
      OrdersAgreeExactly(p[i].key, p[j].key);
      BeforeTotal(ByUtf8, p[i].key, p[j].key);
      BeforeTotal(ByUnit, p[i].key, p[j].key);
    }
  }

  /** Members sorted by each order give one list exactly if the members agree and no keys are crossed. */
  lemma SortsAgreeExactly(ms: seq<Member<Json>>, ns: seq<Member<Json>>)
    requires Distinct(ms) && |ms| == |ns|
    requires forall i | 0 <= i < |ms| :: ms[i].key == ns[i].key && WellFormed(ms[i].key)
    ensures Sort(ByUtf8, ms) == Sort(ByUnit, ns) <==> ms == ns && Uncrossed(ms)
  {
    var p := Sort(ByUtf8, ms);
    if ms == ns && Uncrossed(ms) {
      SortOrdersAgree(ms);
    }
    if p == Sort(ByUnit, ns) {
      SortSorted(ByUtf8, ms);
      SortSorted(ByUnit, ns);
      SortDistinct(ByUtf8, ms);
      forall i | 0 <= i < |p| ensures WellFormed(p[i].key) {
        SortMembership(ByUtf8, ms, p[i]);
      }
      SortedTwiceUncrossed(p);
      forall i | 0 <= i < |ms| ensures ms[i] in p && ms[i] == ns[i] {
        SortMembership(ByUtf8, ms, ms[i]);
        SortMembership(ByUnit, ns, ns[i]);
        SameKeySameMember(p, ms[i], ns[i]);
      }
    }
  }

  lemma SameKeySameMember<T>(p: seq<Member<T>>, m: Member<T>, n: Member<T>)
    requires Distinct(p) && m in p && n in p && m.key == n.key
    ensures m == n
  {
  }

  lemma {:induction false} NormsAgreeExactly(v: Json)
    requires Proper(v) && InDomain(v)
    ensures Norm(ByUtf8, v) == Norm(ByUnit, v) <==> NoCrossedKeys(v)
  {
    match v
    case Arr(items) =>
      var xs, ys := NormItems(ByUtf8, items), NormItems(ByUnit, items);
      forall i | 0 <= i < |items| ensures xs[i] == ys[i] <==> NoCrossedKeys(items[i]) {
        NormsAgreeExactly(items[i]);
      }
    case Obj(ms) =>
      var xs, ys := NormMembers(ByUtf8, ms), NormMembers(ByUnit, ms);
      forall i | 0 <= i < |ms| ensures xs[i] == ys[i] <==> NoCrossedKeys(ms[i].value) {
        NormsAgreeExactly(ms[i].value);
      }
      SortsAgreeExactly(xs, ys);
      assert Uncrossed(xs) <==> Uncrossed(ms);
    case _ =>
  }

  /** The two canonicalizers write the same text exactly where no object has crossed keys. */
  lemma StrictAgreesWithLegacyExactly(v: Json)
    requires Proper(v) && InDomain(v)
    ensures Strict(v) == Ok(Legacy(v)) <==> NoCrossedKeys(v)
  {
    StrictExact(v);
    NormsAgreeExactly(v);
    CanonIsPrintOfNorm(ByUtf8, v);
    CanonIsPrintOfNorm(ByUnit, v);
    DomainDense(v);
    SqueezedNorm(ByUtf8, v);
    SqueezedNorm(ByUnit, v);
    PrintIdentifies(Norm(ByUtf8, v), Norm(ByUnit, v));
  }

  const HIGH_KEY: Text := [0xFFFF]
  const PAIR_KEY: Text := [0xD800, 0xDC00]

  /** An object on which they differ: code unit order puts the surrogate first, UTF-8 order puts it last. */
  lemma CrossedKeysDiffer()
    ensures var v := Obj([Member(HIGH_KEY, Null), Member(PAIR_KEY, Null)]);
      Proper(v) && InDomain(v) && Strict(v) != Ok(Legacy(v))
  {
    var v := Obj([Member(HIGH_KEY, Null), Member(PAIR_KEY, Null)]);
    assert HIGH_KEY[1..] == [] && PAIR_KEY[2..] == [];
    assert Crossed(v.members[0].key, v.members[1].key);
    StrictAgreesWithLegacyExactly(v);
  }
}
