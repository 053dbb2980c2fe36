/** Hash chains in the abstract: each link hashes a payload that determines the link before it. */
module HashChain {
  import opened Unicode
  import opened Values

  /** `prev` is the hash the payload names as its predecessor, none at genesis. */
  datatype Link = Link(payload: Text, prev: Option<Text>, hash: Text)

  predicate LinkAt(h: Text -> Text, ls: seq<Link>, k: nat)
    requires k < |ls|
  {
    && ls[k].hash == h(ls[k].payload)
    && ls[k].prev == if k == 0 then None else Some(ls[k - 1].hash)
  }

  predicate Chained(h: Text -> Text, ls: seq<Link>) {
    forall k {:trigger LinkAt(h, ls, k)} | 0 <= k < |ls| :: LinkAt(h, ls, k)
  }

  /** Equal payloads name equal predecessors. */
  predicate Pins(a: seq<Link>, b: seq<Link>) {
    forall i, j | 0 <= i < |a| && 0 <= j < |b| :: a[i].payload == b[j].payload ==> a[i].prev == b[j].prev
  }

  /** Different payloads, one hash. */
  predicate Collides(h: Text -> Text, a: Text, b: Text) {
    a != b && h(a) == h(b)
  }

  /** Two payloads collide that stand equally far from the heads of the two chains. */
  predicate CollisionFromHeads(h: Text -> Text, a: seq<Link>, b: seq<Link>) {
    exists i, j | 0 <= i < |a| && 0 <= j < |b| && |a| - i == |b| - j :: Collides(h, a[i].payload, b[j].payload)
  }

  predicate CollisionWithin(h: Text -> Text, a: seq<Link>) {
    exists i, j | 0 <= i < j < |a| :: Collides(h, a[i].payload, a[j].payload)
  }

  function Head(ls: seq<Link>): Text
    requires ls != []
  {
    ls[|ls| - 1].hash
  }

  predicate SamePayloads(a: seq<Link>, b: seq<Link>) {
    |a| == |b| && forall k | 0 <= k < |a| :: a[k].payload == b[k].payload
  }

  lemma PrefixChained(h: Text -> Text, a: seq<Link>, n: nat)
    requires Chained(h, a) && n <= |a|
    ensures Chained(h, a[..n])
  {
    forall k | 0 <= k < n ensures LinkAt(h, a[..n], k) {
      assert LinkAt(h, a, k);
    }
  }

  lemma PrefixPins(a: seq<Link>, n: nat, b: seq<Link>, m: nat)
    requires Pins(a, b) && n <= |a| && m <= |b|
    ensures Pins(a[..n], b[..m])
  {
  }

  /** Two chains with one head hash agree throughout, or exhibit a collision. */
  lemma {:induction false} ChainsAgree(h: Text -> Text, a: seq<Link>, b: seq<Link>)
    requires Chained(h, a) && Chained(h, b) && Pins(a, b)
    requires a != [] && b != [] && Head(a) == Head(b)
    ensures SamePayloads(a, b) || CollisionFromHeads(h, a, b)
    decreases |a|
  {
    var n, m := |a| - 1, |b| - 1;
    assert LinkAt(h, a, n) && LinkAt(h, b, m);
    if a[n].payload != b[m].payload {
      assert Collides(h, a[n].payload, b[m].payload);
    } else if n > 0 {
      var x, y := a[..n], b[..m];
      PrefixChained(h, a, n);
      PrefixChained(h, b, m);
      PrefixPins(a, n, b, m);
      ChainsAgree(h, x, y);
      if CollisionFromHeads(h, x, y) {
        var i, j :| 0 <= i < |x| && 0 <= j < |y| && |x| - i == |y| - j && Collides(h, x[i].payload, y[j].payload);
        assert Collides(h, a[i].payload, b[j].payload);
      } else {
        forall k | 0 <= k < |a| ensures a[k].payload == b[k].payload {
          if k < n {
            assert x[k].payload == y[k].payload;
          }
        }
      }
    }
  }

  /** Hashes along a chain are pairwise distinct, by descent to genesis. */
  lemma LinkHashesDistinct(h: Text -> Text, a: seq<Link>, i: nat, j: nat)
    requires Chained(h, a) && Pins(a, a) && i < j < |a|
    ensures a[i].hash != a[j].hash || CollisionWithin(h, a)
  {
    if a[i].hash == a[j].hash {
      var x, y := a[..i + 1], a[..j + 1];
      PrefixChained(h, a, i + 1);
      PrefixChained(h, a, j + 1);
      PrefixPins(a, i + 1, a, j + 1);
      ChainsAgree(h, x, y);
      var k, l :| 0 <= k < |x| && 0 <= l < |y| && |x| - k == |y| - l && Collides(h, x[k].payload, y[l].payload);
      assert Collides(h, a[k].payload, a[l].payload);
    }
  }

  /** No two links name the same predecessor. */
  lemma OneSuccessor(h: Text -> Text, a: seq<Link>, i: nat, j: nat)
    requires Chained(h, a) && Pins(a, a) && i < j < |a|
    ensures a[i].prev != a[j].prev || CollisionWithin(h, a)
  {
    assert LinkAt(h, a, i) && LinkAt(h, a, j);
    if i > 0 {
      LinkHashesDistinct(h, a, i - 1, j - 1);
    }
  }

  /** No link leads to the head. */
  lemma HeadNotLinked(h: Text -> Text, a: seq<Link>, k: nat)
    requires Chained(h, a) && Pins(a, a) && k < |a|
    ensures a[k].prev != Some(Head(a)) || CollisionWithin(h, a)
  {
    assert LinkAt(h, a, k);
    if k > 0 {
      LinkHashesDistinct(h, a, k - 1, |a| - 1);
    }
  }

  /** Links drawn from a chain with any deletion, repetition and reordering. */
  predicate Drawn(s: seq<Link>, picks: seq<nat>, a: seq<Link>) {
    && |picks| == |s|
    && forall k | 0 <= k < |s| :: picks[k] < |a| && s[k] == a[picks[k]]
  }

  /** In a chain drawn from a chain, every link stands where it stood. */
  lemma {:induction false} DrawnInPlace(h: Text -> Text, a: seq<Link>, s: seq<Link>, picks: seq<nat>, k: nat)
    requires Chained(h, a) && Pins(a, a) && !CollisionWithin(h, a)
    requires Drawn(s, picks, a) && Chained(h, s) && k < |s|
    ensures picks[k] == k
  {
    var i := picks[k];
    assert LinkAt(h, s, k) && LinkAt(h, a, i);
    if k > 0 {
      DrawnInPlace(h, a, s, picks, k - 1);
      if i > 0 && i - 1 < k - 1 {
        LinkHashesDistinct(h, a, i - 1, k - 1);
      } else if k < i {
        LinkHashesDistinct(h, a, k - 1, i - 1);
      }
    }
  }
}
