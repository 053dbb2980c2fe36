/** The two canonical serializations: the strict one of the coherence assessment and the legacy one
    behind receipt hashes and signatures. */
module Canonical {
  import opened Unicode
  import opened Values
  import opened JsonText
  import opened ShortestText

  /** The strict canonicalizer sorts keys by their UTF-8 bytes, the legacy one by code unit. */
  datatype KeyOrder = ByUtf8 | ByUnit

  predicate Before(o: KeyOrder, a: Text, b: Text) {
    match o
    case ByUtf8 => Utf8Before(a, b)
    case ByUnit => Less(a, b)
  }

  /** Keys on which the order is total: any text for code units, well-formed text for UTF-8 bytes. */
  predicate KeyOk(o: KeyOrder, key: Text) {
    o.ByUnit? || WellFormed(key)
  }

  predicate KeysOk(o: KeyOrder, v: Json) {
    match v
    case Arr(items) => forall i | 0 <= i < |items| :: KeysOk(o, items[i])
    case Obj(ms) => forall i | 0 <= i < |ms| :: KeyOk(o, ms[i].key) && KeysOk(o, ms[i].value)
    case _ => true
  }

  lemma {:induction false} UnitKeysOk(v: Json)
    ensures KeysOk(ByUnit, v)
  {
    match v
    case Arr(items) =>
      forall i | 0 <= i < |items| ensures KeysOk(ByUnit, items[i]) { UnitKeysOk(items[i]); }
    case Obj(ms) =>
      forall i | 0 <= i < |ms| ensures KeysOk(ByUnit, ms[i].value) { UnitKeysOk(ms[i].value); }
    case _ =>
  }

  lemma BeforeTotal(o: KeyOrder, a: Text, b: Text)
    requires KeyOk(o, a) && KeyOk(o, b)
    ensures !(Before(o, a, b) && Before(o, b, a))
    ensures !Before(o, a, b) && !Before(o, b, a) <==> a == b
  {
    if o.ByUtf8? {
      Utf8BeforeIsCodePointOrder(a, b);
    } else {
      LessTrichotomy(a, b);
    }
  }

  lemma BeforeTransitive(o: KeyOrder, a: Text, b: Text, c: Text)
    requires Before(o, a, b) && Before(o, b, c)
    ensures Before(o, a, c)
  {
    if o.ByUtf8? {
      LessTransitive(Utf8(Scalars(a)), Utf8(Scalars(b)), Utf8(Scalars(c)));
    } else {
      LessTransitive(a, b, c);
    }
  }

  // ---------------------------------------------------------------- sorting members by key

  function Insert<T>(o: KeyOrder, m: Member<T>, ms: seq<Member<T>>): (r: seq<Member<T>>)
    ensures |r| == |ms| + 1
  {
    if ms == [] || !Before(o, ms[0].key, m.key) then [m] + ms else [ms[0]] + Insert(o, m, ms[1..])
  }

  /** A stable sort by key. */
  function Sort<T>(o: KeyOrder, ms: seq<Member<T>>): (r: seq<Member<T>>)
    ensures |r| == |ms|
  {
    if ms == [] then [] else Insert(o, ms[0], Sort(o, ms[1..]))
  }

  ghost predicate Sorted<T>(o: KeyOrder, ms: seq<Member<T>>) {
    forall i, j | 0 <= i < j < |ms| :: Before(o, ms[i].key, ms[j].key)
  }

  lemma ConsElements<T>(s: seq<T>)
    requires s != []
    ensures multiset(s) == multiset(s[1..]) + multiset{s[0]}
  {
    assert s == [s[0]] + s[1..];
  }

  lemma {:induction false} InsertElements<T>(o: KeyOrder, m: Member<T>, ms: seq<Member<T>>)
    ensures multiset(Insert(o, m, ms)) == multiset(ms) + multiset{m}
  {
    if ms == [] || !Before(o, ms[0].key, m.key) {
    } else {
      InsertElements(o, m, ms[1..]);
      ConsElements(ms);
    }
  }

  /** Sorting keeps every member. */
  lemma {:induction false} SortElements<T>(o: KeyOrder, ms: seq<Member<T>>)
    ensures multiset(Sort(o, ms)) == multiset(ms)
  {
    if ms != [] {
      SortElements(o, ms[1..]);
      InsertElements(o, ms[0], Sort(o, ms[1..]));
      ConsElements(ms);
    }
  }

  lemma SortMembership<T>(o: KeyOrder, ms: seq<Member<T>>, m: Member<T>)
    ensures m in Sort(o, ms) <==> m in ms
  {
    SortElements(o, ms);
    assert m in Sort(o, ms) <==> m in multiset(Sort(o, ms));
    assert m in ms <==> m in multiset(ms);
  }

  /** Putting a member before all others keeps a list sorted. */
  lemma SortedCons<T>(o: KeyOrder, m: Member<T>, ms: seq<Member<T>>)
    requires Sorted(o, ms) && forall j | 0 <= j < |ms| :: Before(o, m.key, ms[j].key)
    ensures Sorted(o, [m] + ms)
  {
  }

  lemma {:induction false} InsertSorted<T>(o: KeyOrder, m: Member<T>, ms: seq<Member<T>>)
    requires Sorted(o, ms)
    requires KeyOk(o, m.key) && forall i | 0 <= i < |ms| :: KeyOk(o, ms[i].key) && ms[i].key != m.key
    ensures Sorted(o, Insert(o, m, ms))
  {
    if ms == [] {
    } else if !Before(o, ms[0].key, m.key) {
      BeforeTotal(o, ms[0].key, m.key);
      forall j | 0 <= j < |ms| ensures Before(o, m.key, ms[j].key) {
        if j > 0 {
          BeforeTransitive(o, m.key, ms[0].key, ms[j].key);
        }
      }
      SortedCons(o, m, ms);
    } else {
      InsertSorted(o, m, ms[1..]);
      var r := Insert(o, m, ms[1..]);
      forall j | 0 <= j < |r| ensures Before(o, ms[0].key, r[j].key) {
        InsertElements(o, m, ms[1..]);
        assert r[j] in multiset(r);
        assert r[j] == m || r[j] in ms[1..];
      }
      SortedCons(o, ms[0], r);
    }
  }

  lemma {:induction false} SortSorted<T>(o: KeyOrder, ms: seq<Member<T>>)
    requires Distinct(ms) && forall i | 0 <= i < |ms| :: KeyOk(o, ms[i].key)
    ensures Sorted(o, Sort(o, ms))
  {
    if ms != [] {
      var r := Sort(o, ms[1..]);
      SortSorted(o, ms[1..]);
      forall i | 0 <= i < |r| ensures KeyOk(o, r[i].key) && r[i].key != ms[0].key {
        SortMembership(o, ms[1..], r[i]);
        var j :| 0 <= j < |ms[1..]| && ms[1..][j] == r[i];
        assert r[i] == ms[j + 1];
      }
      InsertSorted(o, ms[0], r);
    }
  }

  function MapValues<T, V>(f: T -> V, ms: seq<Member<T>>): (r: seq<Member<V>>)
    ensures |r| == |ms|
  {
    seq(|ms|, i requires 0 <= i < |ms| => Member(ms[i].key, f(ms[i].value)))
  }

  lemma {:induction false} InsertMap<T, V>(o: KeyOrder, f: T -> V, m: Member<T>, ms: seq<Member<T>>)
    ensures MapValues(f, Insert(o, m, ms)) == Insert(o, Member(m.key, f(m.value)), MapValues(f, ms))
  {
    if ms == [] || !Before(o, ms[0].key, m.key) {
    } else {
      InsertMap(o, f, m, ms[1..]);
      assert MapValues(f, ms)[1..] == MapValues(f, ms[1..]);
    }
  }

  /** Sorting looks at keys only. */
  lemma {:induction false} SortMap<T, V>(o: KeyOrder, f: T -> V, ms: seq<Member<T>>)
    ensures MapValues(f, Sort(o, ms)) == Sort(o, MapValues(f, ms))
  {
    if ms != [] {
      SortMap(o, f, ms[1..]);
      InsertMap(o, f, ms[0], Sort(o, ms[1..]));
      assert MapValues(f, ms)[1..] == MapValues(f, ms[1..]);
    }
  }

  lemma BothEmpty<T>(p: seq<T>, q: seq<T>)
    requires forall m :: m in p <==> m in q
    ensures p == [] <==> q == []
  {
    if p != [] {
      assert p[0] in q;
    }
    if q != [] {
      assert q[0] in p;
    }
  }

  /** A strictly sorted member list is determined by its members. */
  lemma {:induction false} SortedUnique<T>(o: KeyOrder, p: seq<Member<T>>, q: seq<Member<T>>)
    requires Sorted(o, p) && Sorted(o, q)
    requires forall i | 0 <= i < |p| :: KeyOk(o, p[i].key)
    requires forall m :: m in p <==> m in q
    ensures p == q
  {
    BothEmpty(p, q);
    if p != [] {
      assert p[0] in q;
      assert q[0] in p;
      var i :| 0 <= i < |p| && p[i] == q[0];
      var j :| 0 <= j < |q| && q[j] == p[0];
      BeforeTotal(o, p[0].key, p[i].key);
      assert p[0] == q[0];
      forall m ensures m in p[1..] <==> m in q[1..] {
        TailMembership(o, p, m);
        TailMembership(o, q, m);
      }
      SortedUnique(o, p[1..], q[1..]);
      assert p == [p[0]] + p[1..] && q == [q[0]] + q[1..];
    }
  }

  lemma TailMembership<T>(o: KeyOrder, p: seq<Member<T>>, m: Member<T>)
    requires p != [] && Sorted(o, p) && KeyOk(o, p[0].key)
    ensures m in p[1..] <==> m in p && m != p[0]
  {
    assert p == [p[0]] + p[1..];
    if m == p[0] && m in p[1..] {
      var i :| 0 <= i < |p[1..]| && p[1..][i] == m;
      assert Before(o, p[0].key, p[i + 1].key);
      BeforeTotal(o, p[0].key, p[0].key);
    }
  }

  // ---------------------------------------------------------------- the canonical text

  /** The canonical text: members sorted by key at every depth. This is the legacy `canonicalize`
      for `ByUnit`, and what the strict one returns for `ByUtf8` when it does not throw. */
  function Canon(o: KeyOrder, v: Json): Text
    decreases v, 1
  {
    match v
    case Arr(items) => [LBRACKET] + Join(CanonItems(o, items)) + [RBRACKET]
    case Obj(ms) => [LBRACE] + Join(MemberTexts(Sort(o, CanonMembers(o, ms)))) + [RBRACE]
    case _ => Print(v)
  }

  function CanonItems(o: KeyOrder, items: seq<Json>): (ts: seq<Text>)
    ensures |ts| == |items|
    decreases items, 0
  {
    seq(|items|, i requires 0 <= i < |items| => if items[i].Undef? then [] else Canon(o, items[i]))
  }

  function CanonMembers(o: KeyOrder, ms: seq<Member<Json>>): (ts: seq<Member<Text>>)
    ensures |ts| == |ms|
    decreases ms, 0
  {
    seq(|ms|, i requires 0 <= i < |ms| => Member(ms[i].key, Canon(o, ms[i].value)))
  }

  function Legacy(v: Json): Text {
    Canon(ByUnit, v)
  }

  /** The same value with its members sorted at every depth. */
  function Norm(o: KeyOrder, v: Json): Json
    decreases v, 1
  {
    match v
    case Arr(items) => Arr(NormItems(o, items))
    case Obj(ms) => Obj(Sort(o, NormMembers(o, ms)))
    case _ => v
  }

  function NormItems(o: KeyOrder, items: seq<Json>): (r: seq<Json>)
    ensures |r| == |items|
    decreases items, 0
  {
    seq(|items|, i requires 0 <= i < |items| => Norm(o, items[i]))
  }

  function NormMembers(o: KeyOrder, ms: seq<Member<Json>>): (r: seq<Member<Json>>)
    ensures |r| == |ms|
    decreases ms, 0
  {
    seq(|ms|, i requires 0 <= i < |ms| => Member(ms[i].key, Norm(o, ms[i].value)))
  }

  /** The canonical text is the plain text of the value with sorted members. */
  lemma {:induction false} CanonIsPrintOfNorm(o: KeyOrder, v: Json)
    ensures Canon(o, v) == Print(Norm(o, v))
  {
    match v
    case Arr(items) =>
      forall i | 0 <= i < |items| ensures Canon(o, items[i]) == Print(Norm(o, items[i])) {
        CanonIsPrintOfNorm(o, items[i]);
      }
      assert CanonItems(o, items) == PrintItems(NormItems(o, items));
    case Obj(ms) =>
      forall i | 0 <= i < |ms| ensures Canon(o, ms[i].value) == Print(Norm(o, ms[i].value)) {
        CanonIsPrintOfNorm(o, ms[i].value);
      }
      assert CanonMembers(o, ms) == PrintMembers(NormMembers(o, ms));
      SortMap(o, Print, NormMembers(o, ms));
      assert PrintMembers(NormMembers(o, ms)) == MapValues(Print, NormMembers(o, ms));
      assert PrintMembers(Norm(o, v).members) == MapValues(Print, Norm(o, v).members);
    case _ =>
  }

  lemma {:induction false} InsertDistinct<T>(o: KeyOrder, m: Member<T>, ms: seq<Member<T>>)
    requires Distinct(ms) && m.key !in Keys(ms)
    ensures Distinct(Insert(o, m, ms)) && Keys(Insert(o, m, ms)) == Keys(ms) + {m.key}
  {
    if ms == [] || !Before(o, ms[0].key, m.key) {
      KeysCons(m, ms);
    } else {
      KeysCons(ms[0], ms[1..]);
      assert ms == [ms[0]] + ms[1..];
      InsertDistinct(o, m, ms[1..]);
      KeysCons(ms[0], Insert(o, m, ms[1..]));
    }
  }

  lemma {:induction false} SortDistinct<T>(o: KeyOrder, ms: seq<Member<T>>)
    requires Distinct(ms)
    ensures Distinct(Sort(o, ms)) && Keys(Sort(o, ms)) == Keys(ms)
  {
    if ms != [] {
      SortDistinct(o, ms[1..]);
      InsertDistinct(o, ms[0], Sort(o, ms[1..]));
      KeysCons(ms[0], ms[1..]);
      assert ms == [ms[0]] + ms[1..];
    }
  }

  lemma NormOfUndefined(o: KeyOrder, v: Json)
    ensures Norm(o, v).Undef? <==> v.Undef?
  {
  }

  /** Sorting members and emptying arrays of one `undefined` element do not interfere. */
  lemma {:induction false} SqueezedNorm(o: KeyOrder, v: Json)
    ensures Squeezed(Norm(o, v)) == Norm(o, Squeezed(v))
  {
    match v
    case Arr(items) =>
      forall i | 0 <= i < |items| ensures Squeezed(Norm(o, items[i])) == Norm(o, Squeezed(items[i])) {
        SqueezedNorm(o, items[i]);
      }
      LoneUndefinedNorm(o, items);
      SqueezedNormItems(o, items);
    case Obj(ms) =>
      forall i | 0 <= i < |ms| ensures Squeezed(Norm(o, ms[i].value)) == Norm(o, Squeezed(ms[i].value)) {
        SqueezedNorm(o, ms[i].value);
      }
      SqueezedNormMembers(o, ms);
    case _ =>
  }

  lemma LoneUndefinedNorm(o: KeyOrder, items: seq<Json>)
    ensures NormItems(o, items) == [Undef] <==> items == [Undef]
    ensures NormItems(o, []) == []
  {
    if |items| == 1 {
      NormOfUndefined(o, items[0]);
      assert items == [items[0]] && NormItems(o, items) == [Norm(o, items[0])];
    }
  }

  lemma SqueezedNormItems(o: KeyOrder, items: seq<Json>)
    requires forall i | 0 <= i < |items| :: Squeezed(Norm(o, items[i])) == Norm(o, Squeezed(items[i]))
    ensures SqueezedItems(NormItems(o, items)) == NormItems(o, SqueezedItems(items))
  {
    forall i | 0 <= i < |items|
      ensures SqueezedItems(NormItems(o, items))[i] == NormItems(o, SqueezedItems(items))[i]
    {
      assert NormItems(o, items)[i] == Norm(o, items[i]);
    }
  }

  lemma SqueezedNormMembers(o: KeyOrder, ms: seq<Member<Json>>)
    requires forall i | 0 <= i < |ms| :: Squeezed(Norm(o, ms[i].value)) == Norm(o, Squeezed(ms[i].value))
    ensures SqueezedMembers(Sort(o, NormMembers(o, ms))) == Sort(o, NormMembers(o, SqueezedMembers(ms)))
  {
    var ns := NormMembers(o, ms);
    SortMap(o, Squeezed, ns);
    assert SqueezedMembers(Sort(o, ns)) == MapValues(Squeezed, Sort(o, ns));
    assert NormMembers(o, SqueezedMembers(ms)) == MapValues(Squeezed, ns);
  }

  lemma {:induction false} SqueezedKeysOk(o: KeyOrder, v: Json)
    requires KeysOk(o, v)
    ensures KeysOk(o, Squeezed(v))
  {
    match v
    case Arr(items) =>
      forall i | 0 <= i < |items| ensures KeysOk(o, SqueezedItems(items)[i]) { SqueezedKeysOk(o, items[i]); }
    case Obj(ms) =>
      forall i | 0 <= i < |ms| ensures KeysOk(o, SqueezedMembers(ms)[i].value) { SqueezedKeysOk(o, ms[i].value); }
    case _ =>
  }

  // ---------------------------------------------------------------- text equality is value equality

  /** Same values have the same normal form: member order leaves no trace. */
  lemma {:induction false} SameNorm(o: KeyOrder, a: Json, b: Json)
    requires Proper(a) && Proper(b) && KeysOk(o, a) && KeysOk(o, b) && Same(a, b)
    ensures Norm(o, a) == Norm(o, b)
  {
    match a
    case Arr(xs) =>
      forall i | 0 <= i < |xs| ensures Norm(o, xs[i]) == Norm(o, b.items[i]) {
        SameNorm(o, xs[i], b.items[i]);
      }
      assert NormItems(o, xs) == NormItems(o, b.items);
    case Obj(ms) =>
      var ns := b.members;
      var p, q := NormMembers(o, ms), NormMembers(o, ns);
      forall i, j | 0 <= i < |ms| && 0 <= j < |ns| && ms[i].key == ns[j].key ensures p[i] == q[j] {
        LookupAt(ns, j);
        SameNorm(o, ms[i].value, ns[j].value);
      }
      forall m ensures m in Sort(o, p) <==> m in Sort(o, q) {
        SameMembers(ms, ns, p, q, m);
        SortMembership(o, p, m);
        SortMembership(o, q, m);
      }
      SortSorted(o, p);
      SortSorted(o, q);
      forall i | 0 <= i < |p| ensures KeyOk(o, Sort(o, p)[i].key) {
        SortMembership(o, p, Sort(o, p)[i]);
      }
      SortedUnique(o, Sort(o, p), Sort(o, q));
    case _ =>
  }

  lemma SameMembers<T, V>(ms: seq<Member<T>>, ns: seq<Member<T>>, p: seq<Member<V>>, q: seq<Member<V>>, m: Member<V>)
    requires Keys(ms) == Keys(ns) && |p| == |ms| && |q| == |ns|
    requires forall i, j | 0 <= i < |ms| && 0 <= j < |ns| && ms[i].key == ns[j].key :: p[i] == q[j]
    ensures m in p <==> m in q
  {
    if m in p {
      var i :| 0 <= i < |p| && p[i] == m;
      assert ms[i].key in Keys(ns);
    }
    if m in q {
      var j :| 0 <= j < |q| && q[j] == m;
      assert ns[j].key in Keys(ms);
    }
  }

  /** And only same values do. */
  lemma {:induction false} NormSame(o: KeyOrder, a: Json, b: Json)
    requires Proper(a) && Proper(b) && Norm(o, a) == Norm(o, b)
    ensures Same(a, b)
  {
    match a
    case Arr(xs) =>
      forall i | 0 <= i < |xs| ensures Same(xs[i], b.items[i]) {
        assert NormItems(o, xs)[i] == NormItems(o, b.items)[i];
        NormSame(o, xs[i], b.items[i]);
      }
    case Obj(ms) =>
      var ns := b.members;
      var p, q := NormMembers(o, ms), NormMembers(o, ns);
      SortDistinct(o, p);
      SortDistinct(o, q);
      KeysEqual(p, ms);
      KeysEqual(q, ns);
      forall i | 0 <= i < |ms| ensures Same(ms[i].value, Lookup(ns, ms[i].key)) {
        SortMembership(o, p, p[i]);
        SortMembership(o, q, p[i]);
        var j :| 0 <= j < |q| && q[j] == p[i];
        LookupAt(ns, j);
        NormSame(o, ms[i].value, ns[j].value);
      }
    case _ =>
  }

  lemma {:induction false} NormKeepsValue(o: KeyOrder, v: Json)
    requires Proper(v)
    ensures Same(v, Norm(o, v))
  {
    match v
    case Arr(items) =>
      forall i | 0 <= i < |items| ensures Same(items[i], Norm(o, items[i])) {
        NormKeepsValue(o, items[i]);
      }
    case Obj(ms) =>
      var p := NormMembers(o, ms);
      SortDistinct(o, p);
      KeysEqual(p, ms);
      forall i | 0 <= i < |ms| ensures Same(ms[i].value, Lookup(Sort(o, p), ms[i].key)) {
        SortMembership(o, p, p[i]);
        var j :| 0 <= j < |p| && Sort(o, p)[j] == p[i];
        LookupAt(Sort(o, p), j);
        NormKeepsValue(o, ms[i].value);
      }
    case _ =>
  }

  /** Two values have one canonical text exactly when they are the same JSON value, arrays whose only element is
      `undefined` counting as empty. */
  lemma CanonicalTextIdentifiesValue(o: KeyOrder, a: Json, b: Json)
    requires Proper(a) && Proper(b) && KeysOk(o, a) && KeysOk(o, b)
    ensures Canon(o, a) == Canon(o, b) <==> Alike(a, b)
  {
    CanonIsPrintOfNorm(o, a);
    CanonIsPrintOfNorm(o, b);
    PrintIdentifies(Norm(o, a), Norm(o, b));
    SqueezedNorm(o, a);
    SqueezedNorm(o, b);
    SqueezedProper(a);
    SqueezedProper(b);
    SqueezedKeysOk(o, a);
    SqueezedKeysOk(o, b);
    if Norm(o, Squeezed(a)) == Norm(o, Squeezed(b)) {
      NormSame(o, Squeezed(a), Squeezed(b));
    }
    if Alike(a, b) {
      SameNorm(o, Squeezed(a), Squeezed(b));
    }
  }

  /** So it is lost exactly where there is such an array: emptying it changes the value and not its text. */
  lemma OnlyLoneUndefinedVanishes(o: KeyOrder, v: Json)
    requires Proper(v)
    ensures Canon(o, Squeezed(v)) == Canon(o, v)
    ensures Same(v, Squeezed(v)) <==> Dense(v)
  {
    CanonIsPrintOfNorm(o, v);
    CanonIsPrintOfNorm(o, Squeezed(v));
    SqueezedNorm(o, v);
    PrintSqueezed(Norm(o, v));
    SqueezedSameExactly(v);
  }

  /** A canonical text is recovered from the front of any text that continues it, a number's from any that
      does not continue its digits: the decoder gives the value with sorted members. */
  lemma CanonicalTextDecodes(o: KeyOrder, v: Json, rest: Text)
    requires Proper(v) && EndsBefore(v, rest)
    ensures Decode(Canon(o, v) + rest) == Got(Norm(o, Squeezed(v)), rest)
    ensures Same(Squeezed(v), Norm(o, Squeezed(v)))
  {
    CanonIsPrintOfNorm(o, v);
    RoundTrip(Norm(o, v), rest);
    SqueezedNorm(o, v);
    SqueezedProper(v);
    NormKeepsValue(o, Squeezed(v));
  }

  /** No canonical text is a proper prefix of another, but for two numbers. */
  lemma CanonicalPrefixFree(o: KeyOrder, a: Json, b: Json)
    requires Canon(o, a) <= Canon(o, b)
    ensures Canon(o, a) == Canon(o, b) || (a.Num? && b.Num?)
  {
    CanonIsPrintOfNorm(o, a);
    CanonIsPrintOfNorm(o, b);
    PrefixFree(Norm(o, a), Norm(o, b));
  }

  /** Of all well-formed texts that read as the value with sorted members, the canonical one is the shortest, and no
      other is as short. */
  lemma CanonicalTextShortest(o: KeyOrder, v: Json, t: Text)
    requires Proper(v) && WellFormed(t) && Decode(t) == Got(Norm(o, Squeezed(v)), [])
    ensures |Canon(o, v)| < |t| || t == Canon(o, v)
  {
    CanonIsPrintOfNorm(o, v);
    SqueezedNorm(o, v);
    PrintSqueezed(Norm(o, v));
    PrintShortest(Norm(o, Squeezed(v)), t);
  }
}
