/** The persistent nonce stores and what they guarantee over whole runs. */
module Nonces {
  import opened Values

  /** A nonce as the store file keeps it: an array element, so `undefined` becomes null. */
  function Persisted(nonce: Json): Json {
    if nonce.Undef? then Null else Stored(nonce)
  }

  /** The store file; both nonce stores have this form. */
  class NonceStore {
    var used: seq<Json>

    constructor ()
      ensures used == []
    {
      used := [];
    }

    /** Admits a nonce that is not in the store, and records it. */
    method CheckAndRecordNonce(nonce: Json) returns (admitted: bool)
      modifies this
      ensures admitted <==> !Includes(old(used), nonce)
      ensures used == Recorded(old(used), nonce)
      ensures used == old(used) + if !admitted then [] else if nonce.Undef? then [Null] else [Stored(nonce)]
    {
      if Includes(used, nonce) {
        return false;
      }
      used := used + [Persisted(nonce)];
      return true;
    }
  }

  function Recorded(used: seq<Json>, nonce: Json): seq<Json> {
    if Includes(used, nonce) then used else used + [Persisted(nonce)]
  }

  /** The store after a run of attempts. */
  function After(used: seq<Json>, nonces: seq<Json>): seq<Json> {
    if nonces == [] then used
    else Recorded(After(used, nonces[..|nonces| - 1]), nonces[|nonces| - 1])
  }

  /** Whether the attempt at position `k` of the run is admitted. */
  predicate Admitted(used: seq<Json>, nonces: seq<Json>, k: nat)
    requires k < |nonces|
  {
    !Includes(After(used, nonces[..k]), nonces[k])
  }

  predicate NoUndefined(used: seq<Json>) {
    forall i | 0 <= i < |used| :: !used[i].Undef?
  }

  lemma IncludesSnoc(used: seq<Json>, v: Json, x: Json)
    ensures Includes(used + [v], x) <==> Includes(used, x) || StrictEq(v, x)
  {
    var s := used + [v];
    if Includes(used, x) {
      var i :| 0 <= i < |used| && StrictEq(used[i], x);
      assert StrictEq(s[i], x);
    }
    if StrictEq(v, x) {
      assert StrictEq(s[|used|], x);
    }
  }

  /** What the store knows after a run: what it knew before, and every nonce tried, as persisted. */
  lemma {:induction false} StoreAfterRun(used: seq<Json>, nonces: seq<Json>, x: Json)
    requires NoUndefined(used)
    ensures NoUndefined(After(used, nonces))
    ensures Includes(After(used, nonces), x) <==>
      Includes(used, x) || exists i | 0 <= i < |nonces| :: StrictEq(Persisted(nonces[i]), x)
    decreases |nonces|
  {
    if nonces != [] {
      var n := |nonces| - 1;
      var before, last := nonces[..n], nonces[n];
      StoreAfterRun(used, before, x);
      StoreAfterRun(used, before, last);
      var store := After(used, before);
      IncludesSnoc(store, Persisted(last), x);
      if Includes(store, last) {
        assert Persisted(last) == last by {
          var i :| 0 <= i < |store| && StrictEq(store[i], last);
        }
      }
      assert forall i | 0 <= i < n :: before[i] == nonces[i];
      assert Includes(After(used, nonces), x) <==> Includes(store, x) || StrictEq(Persisted(last), x);
    }
  }

  /** An attempt is admitted exactly when its nonce was not in the store at the start and no earlier attempt
      of the run, admitted or not, left a nonce identical to it. */
  lemma AdmittedExactly(used: seq<Json>, nonces: seq<Json>, k: nat)
    requires NoUndefined(used) && k < |nonces|
    ensures Admitted(used, nonces, k) <==>
      !Includes(used, nonces[k]) && forall i | 0 <= i < k :: !StrictEq(Persisted(nonces[i]), nonces[k])
  {
    StoreAfterRun(used, nonces[..k], nonces[k]);
    assert forall i | 0 <= i < k :: nonces[..k][i] == nonces[i];
  }

  /** A nonce that identity can recognise: a string, number, boolean or null. */
  predicate Recognisable(nonce: Json) {
    !nonce.Undef? && !nonce.Arr? && !nonce.Obj?
  }

  /** Of two attempts with one nonce the second is refused exactly when the nonce is recognisable. */
  lemma ReplayRefusedExactly(used: seq<Json>, nonces: seq<Json>, i: nat, k: nat)
    requires NoUndefined(used) && i < k < |nonces| && nonces[i] == nonces[k]
    ensures Recognisable(nonces[k]) ==> !Admitted(used, nonces, k)
    ensures !Recognisable(nonces[k]) ==> Admitted(used, nonces, k)
  {
    AdmittedExactly(used, nonces, k);
    if Recognisable(nonces[k]) {
      assert StrictEq(Persisted(nonces[i]), nonces[k]);
    } else {
      assert forall v: Json :: StrictEq(v, nonces[k]) ==> v.Undef?;
      forall j | 0 <= j < k ensures !StrictEq(Persisted(nonces[j]), nonces[k]) {
      }
      forall j | 0 <= j < |used| ensures !StrictEq(used[j], nonces[k]) {
      }
    }
  }

  predicate DuplicateFree(used: seq<Json>) {
    forall i, j | 0 <= i < j < |used| :: !StrictEq(used[i], used[j])
  }

  /** No null is in the store, or left by an attempt, before the attempt at position `k`. */
  predicate NullFresh(used: seq<Json>, nonces: seq<Json>, k: nat)
    requires k <= |nonces|
  {
    !Includes(used, Null) && forall j | 0 <= j < k :: Persisted(nonces[j]) != Null
  }

  lemma NullFreshExactly(used: seq<Json>, nonces: seq<Json>)
    requires NoUndefined(used)
    ensures !Includes(After(used, nonces), Null) <==> NullFresh(used, nonces, |nonces|)
  {
    StoreAfterRun(used, nonces, Null);
    assert forall j | 0 <= j < |nonces| :: StrictEq(Persisted(nonces[j]), Null) <==> Persisted(nonces[j]) == Null;
  }

  lemma DuplicateFreeSnoc(store: seq<Json>, v: Json)
    ensures DuplicateFree(store + [v]) <==> DuplicateFree(store) && !Includes(store, v)
  {
    var all := store + [v];
    if DuplicateFree(all) {
      forall i | 0 <= i < |store| ensures !StrictEq(store[i], v) {
        assert !StrictEq(all[i], all[|store|]);
      }
      forall i, j | 0 <= i < j < |store| ensures !StrictEq(store[i], store[j]) {
        assert !StrictEq(all[i], all[j]);
      }
    }
  }

  /** An undefined nonce is the only one whose stored form the store can include when it does not include the nonce. */
  lemma PersistedIncluded(store: seq<Json>, nonce: Json)
    ensures !nonce.Undef? && !Includes(store, nonce) ==> !Includes(store, Persisted(nonce))
  {
  }

  /** The store only grows. It stays free of duplicates exactly if no nonce is tried undefined, which is stored as
      null, once a null is in the store. */
  lemma {:induction false} StoreGrowsDuplicateFree(used: seq<Json>, nonces: seq<Json>)
    requires DuplicateFree(used) && NoUndefined(used)
    ensures used <= After(used, nonces)
    ensures DuplicateFree(After(used, nonces)) <==>
      forall k | 0 <= k < |nonces| && nonces[k].Undef? :: NullFresh(used, nonces, k)
    decreases |nonces|
  {
    if nonces != [] {
      var n := |nonces| - 1;
      var before, last := nonces[..n], nonces[n];
      var store := After(used, before);
      StoreGrowsDuplicateFree(used, before);
      StoreAfterRun(used, before, last);
      NullFreshExactly(used, before);
      forall k | 0 <= k <= n ensures NullFresh(used, before, k) <==> NullFresh(used, nonces, k) {
        assert forall j | 0 <= j < k :: before[j] == nonces[j];
      }
      assert forall k | 0 <= k < n :: before[k] == nonces[k];
      DuplicateFreeSnoc(store, Persisted(last));
      PersistedIncluded(store, last);
    }
  }

  /** In particular where, as at both callers, every nonce is defined. */
  lemma DefinedNoncesDuplicateFree(used: seq<Json>, nonces: seq<Json>)
    requires DuplicateFree(used) && NoUndefined(used)
    requires forall i | 0 <= i < |nonces| :: !nonces[i].Undef?
    ensures DuplicateFree(After(used, nonces))
  {
    StoreGrowsDuplicateFree(used, nonces);
  }
}
