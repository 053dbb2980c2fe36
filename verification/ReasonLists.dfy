/** The reason lists an assessment grows, rule after rule, and sorts at the end. */
module ReasonLists {
  import opened Unicode
  import opened Values
  import opened Canonical
  import opened Platform
  import opened Coherence

  // ---------------------------------------------------------------- reason lists

  predicate NoDuplicates(ts: seq<Code>) {
    forall i, j | 0 <= i < j < |ts| :: ts[i] != ts[j]
  }

  function Elements(ts: seq<Code>): (s: set<Code>) {
    set t | t in ts
  }

  method PushUnique(target: seq<Code>, value: Code) returns (r: seq<Code>)
    requires NoDuplicates(target)
    ensures NoDuplicates(r) && Elements(r) == Elements(target) + {value}
    ensures target <= r
  {
    if value in target {
      return target;
    }
    return target + [value];
  }

  /** Strictly increasing by code unit, the order of the default array sort. */
  ghost predicate Increasing(ts: seq<Text>) {
    forall i, j | 0 <= i < j < |ts| :: Less(ts[i], ts[j])
  }

  function AsMembers(ts: seq<Code>): (ms: seq<Member<bool>>)
    ensures |ms| == |ts|
  {
    seq(|ts|, i requires 0 <= i < |ts| => Member(ts[i], true))
  }

  lemma SortedKeysIn(ts: seq<Code>)
    ensures forall m | m in Sort(ByUnit, AsMembers(ts)) :: m.key in ts
  {
    forall m | m in Sort(ByUnit, AsMembers(ts)) ensures m.key in ts {
      SortMembership(ByUnit, AsMembers(ts), m);
    }
  }

  /** `sort` on a list of codes. */
  function SortCodes(ts: seq<Code>): (r: seq<Code>)
    ensures |r| == |ts|
  {
    SortedKeysIn(ts);
    var sorted := Sort(ByUnit, AsMembers(ts));
    seq(|sorted|, i requires 0 <= i < |sorted| => sorted[i].key)
  }

  lemma SortKeeps(ts: seq<Code>, t: Code)
    ensures t in SortCodes(ts) <==> t in ts
  {
    var ms, r := AsMembers(ts), SortCodes(ts);
    var sorted := Sort(ByUnit, ms);
    if t in ts {
      var k :| 0 <= k < |ts| && ts[k] == t;
      SortMembership(ByUnit, ms, ms[k]);
      var j :| 0 <= j < |sorted| && sorted[j] == ms[k];
      assert r[j] == t;
    }
    if t in r {
      var j :| 0 <= j < |r| && r[j] == t;
      SortMembership(ByUnit, ms, sorted[j]);
      MemberOfCodes(ts, sorted[j]);
    }
  }

  /** Sorting a list without duplicates gives its elements in strictly increasing order. */
  lemma SortCodesSpec(ts: seq<Code>)
    requires NoDuplicates(ts)
    ensures Increasing(SortCodes(ts)) && Elements(SortCodes(ts)) == Elements(ts)
  {
    SortIncreasing(ts);
    forall t: Code ensures t in SortCodes(ts) <==> t in ts {
      SortKeeps(ts, t);
    }
  }

  lemma SortIncreasing(ts: seq<Code>)
    requires NoDuplicates(ts)
    ensures Increasing(SortCodes(ts))
  {
    var ms, r := AsMembers(ts), SortCodes(ts);
    var sorted := Sort(ByUnit, ms);
    SortSorted(ByUnit, ms);
    SortedKeysIn(ts);
    assert forall i | 0 <= i < |sorted| :: r[i] == sorted[i].key;
  }

  lemma {:induction false} Enumerate(s: set<Code>) returns (ts: seq<Code>)
    ensures NoDuplicates(ts) && Elements(ts) == s
  {
    if s == {} {
      return [];
    }
    var t :| t in s;
    var rest := Enumerate(s - {t});
    assert t !in Elements(rest);
    ts := rest + [t];
    assert Elements(ts) == Elements(rest) + {t} == s;
  }

  /** The codes of a set in increasing order. */
  ghost function Listing(s: set<Code>): (r: seq<Code>)
    ensures Increasing(r) && Elements(r) == s
  {
    ListingExists(s);
    var r: seq<Code> :| Increasing(r) && Elements(r) == s;
    r
  }

  lemma ListingExists(s: set<Code>)
    ensures exists r: seq<Code> :: Increasing(r) && Elements(r) == s
  {
    var ts := Enumerate(s);
    SortCodesSpec(ts);
  }

  /** There is only one such list. */
  lemma ListingUnique(a: seq<Code>, b: seq<Code>)
    requires Increasing(a) && Increasing(b) && Elements(a) == Elements(b)
    ensures a == b
  {
    var p, q := AsMembers(a), AsMembers(b);
    forall m ensures m in p <==> m in q {
      MemberOfCodes(a, m);
      MemberOfCodes(b, m);
      assert m.key in a <==> m.key in Elements(a);
      assert m.key in b <==> m.key in Elements(b);
    }
    SortedUnique(ByUnit, p, q);
    forall k | 0 <= k < |a| ensures a[k] == b[k] {
      assert p[k].key == q[k].key;
    }
  }

  lemma MemberOfCodes(ts: seq<Code>, m: Member<bool>)
    ensures m in AsMembers(ts) <==> m.key in ts && m.value
  {
    if m.key in ts && m.value {
      var k :| 0 <= k < |ts| && ts[k] == m.key;
      assert AsMembers(ts)[k] == m;
    }
  }

  // ---------------------------------------------------------------- gathering reasons

  /** The two lists that the derivation grows. */
  datatype Reasons = Reasons(invalid: seq<Code>, unresolved: seq<Code>)

  predicate Holds(r: Reasons, f: Findings) {
    && NoDuplicates(r.invalid) && NoDuplicates(r.unresolved)
    && Elements(r.invalid) == f.invalid && Elements(r.unresolved) == f.unresolved
  }

  method UnresolveIf(r: Reasons, when: bool, code: Code, ghost f: Findings) returns (r': Reasons)
    requires Holds(r, f)
    ensures Holds(r', Both(f, Unresolves(when, code)))
  {
    if when {
      var list := PushUnique(r.unresolved, code);
      return r.(unresolved := list);
    }
    return r;
  }

  method GatherReceipts(i: Inputs, e: Evidence) returns (r: Reasons)
    ensures Holds(r, ReceiptRule(i.admission, i.consequence, e))
  {
    ghost var f1 := Unresolves(!i.admission.Obj?, ADMISSION_RECEIPT_UNAVAILABLE);
    ghost var f2 := Unresolves(!i.consequence.Obj?, CONSEQUENCE_RECEIPT_UNAVAILABLE);
    ghost var f3 := Unresolves(!IsHash(e.admissionHash), ADMISSION_RECEIPT_HASH_UNAVAILABLE);
    ghost var f4 := Unresolves(!IsHash(e.consequenceHash), CONSEQUENCE_RECEIPT_HASH_UNAVAILABLE);
    r := UnresolveIf(Reasons([], []), !i.admission.Obj?, ADMISSION_RECEIPT_UNAVAILABLE, NOTHING);
    r := UnresolveIf(r, !i.consequence.Obj?, CONSEQUENCE_RECEIPT_UNAVAILABLE, Both(NOTHING, f1));
    r := UnresolveIf(r, !IsHash(e.admissionHash), ADMISSION_RECEIPT_HASH_UNAVAILABLE, Both(Both(NOTHING, f1), f2));
    r := UnresolveIf(r, !IsHash(e.consequenceHash), CONSEQUENCE_RECEIPT_HASH_UNAVAILABLE,
                     Both(Both(Both(NOTHING, f1), f2), f3));
    FourPooled(f1, f2, f3, f4);
  }

  lemma FourPooled(a: Findings, b: Findings, c: Findings, d: Findings)
    ensures Both(Both(Both(Both(NOTHING, a), b), c), d) == Both(Both(a, b), Both(c, d))
  {
    assert Both(NOTHING, a) == a;
    BothAssociates(Both(a, b), c, d);
  }

  method GatherStatus(r: Reasons, status: Json, invalid: Code, unresolved: Code, ghost f: Findings) returns (r': Reasons)
    requires Holds(r, f)
    ensures Holds(r', Both(f, StatusRule(status, invalid, unresolved)))
  {
    if status == S_INVALID {
      var list := PushUnique(r.invalid, invalid);
      return r.(invalid := list);
    } else if status != S_VALID {
      var list := PushUnique(r.unresolved, unresolved);
      return r.(unresolved := list);
    }
    return r;
  }

  method GatherCrypto(r: Reasons, evidence: Json, ghost f: Findings) returns (r': Reasons)
    requires Holds(r, f)
    ensures Holds(r', Both(f, CryptoRule(evidence)))
  {
    if !evidence.Obj? {
      var list := PushUnique(r.unresolved, CRYPTOGRAPHIC_EVIDENCE_UNAVAILABLE);
      return r.(unresolved := list);
    }
    ghost var f1, f2, f3 := AdmissionCrypto(evidence), ConsequenceCrypto(evidence), SentinelCrypto(evidence);
    r' := GatherStatus(r, Get(evidence, ADMISSION_RECEIPT), ADMISSION_RECEIPT_CRYPTO_INVALID,
                       ADMISSION_RECEIPT_CRYPTO_UNRESOLVED, f);
    r' := GatherStatus(r', Get(evidence, CONSEQUENCE_RECEIPT), CONSEQUENCE_RECEIPT_CRYPTO_INVALID,
                       CONSEQUENCE_RECEIPT_CRYPTO_UNRESOLVED, Both(f, f1));
    r' := GatherStatus(r', Get(evidence, SENTINEL_ATTESTATION), SENTINEL_ATTESTATION_INVALID,
                       SENTINEL_ATTESTATION_UNRESOLVED, Both(Both(f, f1), f2));
    BothAssociates(Both(f, f1), f2, f3);
    BothAssociates(f, f1, Both(f2, f3));
  }

  lemma BothAssociates(a: Findings, b: Findings, c: Findings)
    ensures Both(Both(a, b), c) == Both(a, Both(b, c))
  {
  }

  method GatherChain(r: Reasons, e: Evidence, ghost f: Findings) returns (r': Reasons)
    requires Holds(r, f)
    ensures Holds(r', Both(f, ChainRule(e)))
  {
    var invalid := r.invalid;
    if IsHash(e.admissionHash) {
      if e.declaredAdmissionHash != e.admissionHash {
        invalid := PushUnique(invalid, ADMISSION_RECEIPT_BINDING_MISMATCH);
      }
      if e.previousReceiptHash != e.admissionHash {
        invalid := PushUnique(invalid, PREVIOUS_RECEIPT_HASH_MISMATCH);
      }
    }
    return r.(invalid := invalid);
  }

  method GatherNonce(r: Reasons, e: Evidence, ghost f: Findings) returns (r': Reasons)
    requires Holds(r, f)
    ensures Holds(r', Both(f, NonceRule(e)))
  {
    if !Truthy(e.admissionNonce) || !Truthy(e.consequenceNonce) {
      var list := PushUnique(r.unresolved, AUTHORIZATION_NONCE_UNAVAILABLE);
      return r.(unresolved := list);
    } else if !StrictEq(e.admissionNonce, e.consequenceNonce) {
      var list := PushUnique(r.invalid, AUTHORIZATION_NONCE_MISMATCH);
      return r.(invalid := list);
    }
    return r;
  }

  method GatherReplay(r: Reasons, nonceState: Json, ghost f: Findings) returns (r': Reasons)
    requires Holds(r, f)
    ensures Holds(r', Both(f, ReplayRule(nonceState)))
  {
    var unresolved := r.unresolved;
    if !Truthy(nonceState) {
      unresolved := PushUnique(unresolved, AUTHORIZATION_NONCE_STATE_UNAVAILABLE);
    } else if nonceState == IN_RECOVERY {
      unresolved := PushUnique(unresolved, NONCE_RECOVERY_REQUIRED);
    } else if !Includes(TERMINAL_NONCE_STATES, nonceState) {
      unresolved := PushUnique(unresolved, AUTHORIZATION_NONCE_NOT_TERMINAL);
    }
    return r.(unresolved := unresolved);
  }

  method GatherTime(p: Platform, r: Reasons, e: Evidence, ghost f: Findings) returns (r': Reasons)
    requires Holds(r, f)
    ensures Holds(r', Both(f, TimeRule(p, e)))
  {
    if Truthy(e.expiresAt) && Truthy(e.consequenceCreatedAt) {
      if Late(p, e.consequenceCreatedAt, e.expiresAt) {
        var list := PushUnique(r.invalid, AUTHORIZATION_EXPIRED_BEFORE_CONSEQUENCE);
        return r.(invalid := list);
      }
    } else if Truthy(e.expiresAt) || Truthy(e.consequenceCreatedAt) {
      var list := PushUnique(r.unresolved, TEMPORAL_BINDING_INCOMPLETE);
      return r.(unresolved := list);
    }
    return r;
  }

  method GatherExecutor(r: Reasons, e: Evidence, ghost f: Findings) returns (r': Reasons)
    requires Holds(r, f)
    ensures Holds(r', Both(f, ExecutorRule(e)))
  {
    var invalid := r.invalid;
    if e.allowedNodes.Arr? && !Includes(e.allowedNodes.items, e.actualNode) {
      invalid := PushUnique(invalid, EXECUTOR_NODE_NOT_PERMITTED);
    }
    if e.allowedContexts.Arr? && !Includes(e.allowedContexts.items, e.actualContext) {
      invalid := PushUnique(invalid, EXECUTION_CONTEXT_NOT_PERMITTED);
    }
    return r.(invalid := invalid);
  }

  method GatherProfile(r: Reasons, e: Evidence, ghost f: Findings) returns (r': Reasons)
    requires Holds(r, f)
    ensures Holds(r', Both(f, ProfileRule(e)))
  {
    if !ProfileSupported(e) {
      var list := PushUnique(r.unresolved, UNSUPPORTED_CANONICALIZATION_PROFILE);
      return r.(unresolved := list);
    }
    return r;
  }

  /** The always-applied rules, one after the other on the same two lists. */
  method GatherBase(p: Platform, i: Inputs, e: Evidence) returns (r: Reasons)
    ensures Holds(r, BothAll(BaseRules(p, i, e)))
  {
    ghost var f := ReceiptRule(i.admission, i.consequence, e);
    r := GatherReceipts(i, e);
    r := GatherCrypto(r, i.cryptographicEvidence, f);
    f := Both(f, CryptoRule(i.cryptographicEvidence));
    r := GatherChain(r, e, f);
    f := Both(f, ChainRule(e));
    r := GatherNonce(r, e, f);
    f := Both(f, NonceRule(e));
    r := GatherReplay(r, i.nonceState, f);
    f := Both(f, ReplayRule(i.nonceState));
    r := GatherTime(p, r, e, f);
    f := Both(f, TimeRule(p, e));
    r := GatherExecutor(r, e, f);
    f := Both(f, ExecutorRule(e));
    r := GatherProfile(r, e, f);
    EightPooled(BaseRules(p, i, e));
  }

  /** The first `n` findings pooled in the order in which they are made. */
  function Pooled(fs: seq<Findings>, n: nat): Findings
    requires n <= |fs|
  {
    if n == 0 then NOTHING else Both(Pooled(fs, n - 1), fs[n - 1])
  }

  lemma {:induction false} PooledInOrder(fs: seq<Findings>, n: nat)
    requires n <= |fs|
    ensures Pooled(fs, n) == BothAll(fs[..n])
  {
    if n > 0 {
      PooledInOrder(fs, n - 1);
      assert fs[..n] == fs[..n - 1] + [fs[n - 1]];
      BothAllConcat(fs[..n - 1], [fs[n - 1]]);
      assert [fs[n - 1]][1..] == [];
      assert Both(fs[n - 1], NOTHING) == fs[n - 1];
    }
  }

  lemma EightPooled(fs: seq<Findings>)
    requires |fs| == 8
    ensures BothAll(fs)
      == Both(Both(Both(Both(Both(Both(Both(fs[0], fs[1]), fs[2]), fs[3]), fs[4]), fs[5]), fs[6]), fs[7])
  {
    PooledInOrder(fs, 8);
    assert fs[..8] == fs;
    assert Pooled(fs, 1) == Both(Pooled(fs, 0), fs[0]) == fs[0];
    assert Pooled(fs, 3) == Both(Pooled(fs, 2), fs[2]) == Both(Both(Pooled(fs, 1), fs[1]), fs[2]);
    assert Pooled(fs, 5) == Both(Pooled(fs, 4), fs[4]) == Both(Both(Pooled(fs, 3), fs[3]), fs[4]);
    assert Pooled(fs, 7) == Both(Pooled(fs, 6), fs[6]) == Both(Both(Pooled(fs, 5), fs[5]), fs[6]);
  }
}
