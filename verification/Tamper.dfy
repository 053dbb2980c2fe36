/** Tamper evidence: what an accepted chain commits to. Every theorem either holds or points at two
    different payloads of the very ledgers in question with one hash. */
module Tamper {
  import opened Unicode
  import opened Values
  import opened Canonical
  import opened Platform
  import opened Receipts
  import opened Ledger
  import opened Chain
  import opened HashChain

  function ReceiptOf(entry: Json): Json {
    Get(entry, RECEIPT)
  }

  function PayloadOf(entry: Json): Text {
    Payload(ReceiptOf(entry))
  }

  /** A parsed value whose wrapper agrees with its receipt, as appending writes it. */
  predicate Bound(entry: Json) {
    Proper(entry) && Dense(entry) && WrapperAgrees(entry)
  }

  /** The wrapper repeats the hash and the link of the receipt it holds. */
  predicate WrapperAgrees(entry: Json) {
    && Get(entry, RECEIPT_HASH) == Get(ReceiptOf(entry), RECEIPT_HASH)
    && Get(entry, PREVIOUS_RECEIPT_HASH) == PrevOf(ReceiptOf(entry))
  }

  predicate BoundAt(entries: seq<Json>, k: nat)
    requires k < |entries|
  {
    Bound(entries[k])
  }

  predicate AllBound(entries: seq<Json>) {
    forall k {:trigger BoundAt(entries, k)} | 0 <= k < |entries| :: BoundAt(entries, k)
  }

  function LinkHash(entry: Json): Text {
    if Get(entry, RECEIPT_HASH).Str? then Get(entry, RECEIPT_HASH).s else []
  }

  /** The link an entry contributes to the hash chain. */
  function LinkOf(entry: Json): Link {
    Link(PayloadOf(entry),
         if PrevOf(ReceiptOf(entry)).Str? then Some(PrevOf(ReceiptOf(entry)).s) else None,
         LinkHash(entry))
  }

  function LinksOf(entries: seq<Json>): (ls: seq<Link>)
    ensures |ls| == |entries|
  {
    if entries == [] then [] else LinksOf(entries[..|entries| - 1]) + [LinkOf(entries[|entries| - 1])]
  }

  lemma {:induction false} LinksAt(entries: seq<Json>, k: nat)
    requires k < |entries|
    ensures LinksOf(entries)[k] == LinkOf(entries[k])
  {
    if k < |entries| - 1 {
      LinksAt(entries[..|entries| - 1], k);
    }
  }

  /** Position by position the two ledgers hold the same signed bodies. */
  ghost predicate SameHistory(a: seq<Json>, b: seq<Json>) {
    && |a| == |b|
    && forall k | 0 <= k < |a| ::
         && PayloadOf(a[k]) == PayloadOf(b[k])
         && Same(Body(ReceiptOf(a[k])), Body(ReceiptOf(b[k])))
  }

  lemma PayloadsAlike(r: Json, r': Json)
    requires Proper(r) && Proper(r') && Payload(r) == Payload(r')
    ensures Alike(Body(r), Body(r'))
  {
    BodySpec(r, CHAIN_REFERENCE);
    BodySpec(r', CHAIN_REFERENCE);
    UnitKeysOk(Body(r));
    UnitKeysOk(Body(r'));
    CanonicalTextIdentifiesValue(ByUnit, Body(r), Body(r'));
  }

  lemma BodyLink(r: Json)
    requires Proper(r)
    ensures Proper(Body(r)) && Get(Body(r), CHAIN_REFERENCE) == Get(r, CHAIN_REFERENCE)
  {
    assert BODY_KEYS[7] == CHAIN_REFERENCE;
    BodySpec(r, CHAIN_REFERENCE);
  }

  /** A payload pins its body, up to member order and arrays of one `undefined` element, and with it the link the
      receipt declares. */
  lemma PayloadPinsBody(r: Json, r': Json)
    requires Proper(r) && Proper(r') && Payload(r) == Payload(r')
    ensures Alike(Body(r), Body(r'))
    ensures Alike(PrevOf(r), PrevOf(r'))
  {
    PayloadsAlike(r, r');
    BodyLink(r);
    BodyLink(r');
    AlikeGet(Body(r), Body(r'), CHAIN_REFERENCE);
    ProperGet(r, CHAIN_REFERENCE);
    AlikeLinks(Get(r, CHAIN_REFERENCE), Get(r', CHAIN_REFERENCE));
  }

  lemma AlikeGet(a: Json, b: Json, key: Text)
    requires Alike(a, b) && Proper(a)
    ensures Alike(Get(a, key), Get(b, key))
  {
    SqueezedProper(a);
    SameGet(Squeezed(a), Squeezed(b), key);
    SqueezedGet(a, key);
    SqueezedGet(b, key);
  }

  lemma AlikeLinks(c: Json, c': Json)
    requires Alike(c, c') && Proper(c)
    ensures Alike(if Truthy(c) then Get(c, PREVIOUS_RECEIPT_HASH) else Null,
                  if Truthy(c') then Get(c', PREVIOUS_RECEIPT_HASH) else Null)
  {
    AlikeScalars(c, c');
    AlikeGet(c, c', PREVIOUS_RECEIPT_HASH);
  }

  lemma AlikeScalars(a: Json, b: Json)
    requires Alike(a, b)
    ensures Truthy(a) == Truthy(b)
    ensures !a.Arr? && !a.Obj? ==> a == b
    ensures !b.Arr? && !b.Obj? ==> a == b
  {
    SameScalars(Squeezed(a), Squeezed(b));
  }

  lemma DenseBody(r: Json)
    requires Dense(r)
    ensures Squeezed(Body(r)) == Body(r)
  {
    var ms := Body(r).members;
    forall i | 0 <= i < |ms| ensures Dense(ms[i].value) {
      DenseGet(r, ms[i].key);
    }
    SqueezedOfDense(Body(r));
  }

  /** Facts about one entry of an accepted, bound ledger. */
  predicate LinkFacts(p: Platform, entry: Json, before: Json) {
    && Proper(ReceiptOf(entry))
    && Get(entry, RECEIPT_HASH) == Str(p.sha256(PayloadOf(entry)))
    && Truthy(Get(entry, RECEIPT_HASH))
    && PrevOf(ReceiptOf(entry)) == before
  }

  lemma AcceptedAt(p: Platform, trusted: seq<Json>, a: seq<Json>, k: nat)
    requires Accepted(p, trusted, a) && AllBound(a) && k < |a|
    ensures LinkFacts(p, a[k], LinkBefore(a, k, Null))
  {
    assert LinkedAt(p, trusted, a, k, Null) && BoundAt(a, k);
    ProperGet(a[k], RECEIPT);
  }

  /** The link of an accepted entry, given the hash it must link to. */
  predicate LinkIs(p: Platform, entry: Json, link: Link, before: Json) {
    && link.hash == p.sha256(link.payload)
    && link.prev == (if before.Str? then Some(before.s) else None)
    && Get(entry, RECEIPT_HASH) == Str(link.hash)
  }

  lemma LinkOfFacts(p: Platform, entry: Json, before: Json)
    requires LinkFacts(p, entry, before)
    ensures LinkIs(p, entry, LinkOf(entry), before)
  {
  }

  lemma AcceptedLink(p: Platform, trusted: seq<Json>, a: seq<Json>, k: nat)
    requires Accepted(p, trusted, a) && AllBound(a) && k < |a|
    ensures LinkIs(p, a[k], LinksOf(a)[k], LinkBefore(a, k, Null))
  {
    AcceptedAt(p, trusted, a, k);
    LinkOfFacts(p, a[k], LinkBefore(a, k, Null));
    LinksAt(a, k);
  }

  lemma ChainedFromLinks(p: Platform, a: seq<Json>, ls: seq<Link>)
    requires |ls| == |a|
    requires forall k | 0 <= k < |a| :: LinkIs(p, a[k], ls[k], LinkBefore(a, k, Null))
    ensures Chained(p.sha256, ls)
  {
    forall k | 0 <= k < |a| ensures LinkAt(p.sha256, ls, k) {
      assert k > 0 ==> LinkIs(p, a[k - 1], ls[k - 1], LinkBefore(a, k - 1, Null));
    }
  }

  lemma AcceptedIsChained(p: Platform, trusted: seq<Json>, a: seq<Json>)
    requires Accepted(p, trusted, a) && AllBound(a)
    ensures Chained(p.sha256, LinksOf(a))
  {
    forall k | 0 <= k < |a| ensures LinkIs(p, a[k], LinksOf(a)[k], LinkBefore(a, k, Null)) {
      AcceptedLink(p, trusted, a, k);
    }
    ChainedFromLinks(p, a, LinksOf(a));
  }

  lemma PinsAt(x: Json, y: Json)
    requires Proper(ReceiptOf(x)) && Proper(ReceiptOf(y)) && PayloadOf(x) == PayloadOf(y)
    ensures LinkOf(x).prev == LinkOf(y).prev
  {
    PayloadPinsBody(ReceiptOf(x), ReceiptOf(y));
    AlikeScalars(PrevOf(ReceiptOf(x)), PrevOf(ReceiptOf(y)));
  }

  lemma AcceptedPins(p: Platform, trusted: seq<Json>, a: seq<Json>, trusted': seq<Json>, b: seq<Json>)
    requires Accepted(p, trusted, a) && AllBound(a) && Accepted(p, trusted', b) && AllBound(b)
    ensures Pins(LinksOf(a), LinksOf(b))
  {
    forall i, j | 0 <= i < |a| && 0 <= j < |b| && LinksOf(a)[i].payload == LinksOf(b)[j].payload
      ensures LinksOf(a)[i].prev == LinksOf(b)[j].prev
    {
      AcceptedAt(p, trusted, a, i);
      AcceptedAt(p, trusted', b, j);
      LinksAt(a, i);
      LinksAt(b, j);
      PinsAt(a[i], b[j]);
    }
  }

  /** The head hash commits to the whole history: two accepted ledgers with one last hash hold the same
      bodies throughout, whichever keys each verifier trusts, unless two of their own payloads, equally far from
      the heads, collide. */
  lemma HeadCommits(p: Platform, trusted: seq<Json>, a: seq<Json>, trusted': seq<Json>, b: seq<Json>)
    requires Accepted(p, trusted, a) && Accepted(p, trusted', b) && AllBound(a) && AllBound(b)
    requires a != [] && b != []
    requires Get(a[|a| - 1], RECEIPT_HASH) == Get(b[|b| - 1], RECEIPT_HASH)
    ensures SameHistory(a, b) || CollisionFromHeads(p.sha256, LinksOf(a), LinksOf(b))
  {
    AcceptedIsChained(p, trusted, a);
    AcceptedIsChained(p, trusted', b);
    AcceptedPins(p, trusted, a, trusted', b);
    HeadOfLinks(a);
    HeadOfLinks(b);
    ChainsAgree(p.sha256, LinksOf(a), LinksOf(b));
    if SamePayloads(LinksOf(a), LinksOf(b)) {
      SamePayloadsSameHistory(a, b);
    }
  }

  lemma HeadOfLinks(entries: seq<Json>)
    requires entries != []
    ensures Head(LinksOf(entries)) == LinkHash(entries[|entries| - 1])
  {
  }

  lemma SamePayloadsSameHistory(a: seq<Json>, b: seq<Json>)
    requires AllBound(a) && AllBound(b) && SamePayloads(LinksOf(a), LinksOf(b))
    ensures SameHistory(a, b)
  {
    forall k | 0 <= k < |a|
      ensures PayloadOf(a[k]) == PayloadOf(b[k]) && Same(Body(ReceiptOf(a[k])), Body(ReceiptOf(b[k])))
    {
      assert BoundAt(a, k) && BoundAt(b, k);
      LinksAt(a, k);
      LinksAt(b, k);
      ProperGet(a[k], RECEIPT);
      ProperGet(b[k], RECEIPT);
      PayloadPinsBody(ReceiptOf(a[k]), ReceiptOf(b[k]));
      DenseGet(a[k], RECEIPT);
      DenseGet(b[k], RECEIPT);
      DenseBody(ReceiptOf(a[k]));
      DenseBody(ReceiptOf(b[k]));
    }
  }

  /** Receipt hashes along a ledger are pairwise distinct and never null, so a past tail never becomes
      the tail again. */
  lemma HashesDistinct(p: Platform, trusted: seq<Json>, a: seq<Json>, i: nat, j: nat)
    requires Accepted(p, trusted, a) && AllBound(a) && i < j < |a|
    ensures Get(a[i], RECEIPT_HASH) != Get(a[j], RECEIPT_HASH) || CollisionWithin(p.sha256, LinksOf(a))
    ensures Get(a[i], RECEIPT_HASH) != Null && Get(a[j], RECEIPT_HASH) != Null
  {
    AcceptedIsChained(p, trusted, a);
    AcceptedPins(p, trusted, a, trusted, a);
    AcceptedAt(p, trusted, a, i);
    AcceptedAt(p, trusted, a, j);
    LinksAt(a, i);
    LinksAt(a, j);
    LinkHashesDistinct(p.sha256, LinksOf(a), i, j);
  }

  /** At most one receipt built against a given tail is in the ledger. */
  lemma OneSuccessorPerTail(p: Platform, trusted: seq<Json>, a: seq<Json>, i: nat, j: nat)
    requires Accepted(p, trusted, a) && AllBound(a) && i < j < |a|
    ensures PrevOf(ReceiptOf(a[i])) != PrevOf(ReceiptOf(a[j])) || CollisionWithin(p.sha256, LinksOf(a))
  {
    AcceptedIsChained(p, trusted, a);
    AcceptedPins(p, trusted, a, trusted, a);
    OneSuccessor(p.sha256, LinksOf(a), i, j);
    LinksAt(a, i);
    LinksAt(a, j);
  }

  lemma PrefixAccepted(p: Platform, trusted: seq<Json>, a: seq<Json>, n: nat)
    requires Accepted(p, trusted, a) && n <= |a|
    ensures Accepted(p, trusted, a[..n])
  {
    forall k | 0 <= k < n ensures LinkedAt(p, trusted, a[..n], k, Null) {
      assert LinkedAt(p, trusted, a, k, Null);
    }
  }

  /** Entries drawn from a ledger with any deletion, repetition and reordering. */
  predicate DrawnFrom(s: seq<Json>, picks: seq<nat>, a: seq<Json>) {
    && |picks| == |s|
    && forall k | 0 <= k < |s| :: picks[k] < |a| && s[k] == a[picks[k]]
  }

  /** Of the sequences drawn from an accepted ledger, exactly its prefixes are accepted. */
  lemma OnlyPrefixesSurvive(p: Platform, trusted: seq<Json>, a: seq<Json>, s: seq<Json>, picks: seq<nat>)
    requires Accepted(p, trusted, a) && AllBound(a) && DrawnFrom(s, picks, a)
    ensures (Accepted(p, trusted, s) <==> s <= a) || CollisionWithin(p.sha256, LinksOf(a))
  {
    if Accepted(p, trusted, s) && !CollisionWithin(p.sha256, LinksOf(a)) {
      forall k | 0 <= k < |s| ensures BoundAt(s, k) {
        assert BoundAt(a, picks[k]);
      }
      AcceptedIsChained(p, trusted, a);
      AcceptedPins(p, trusted, a, trusted, a);
      AcceptedIsChained(p, trusted, s);
      forall k | 0 <= k < |s| ensures LinksOf(s)[k] == LinksOf(a)[picks[k]] {
        LinksAt(s, k);
        LinksAt(a, picks[k]);
      }
      forall k | 0 <= k < |s| ensures picks[k] == k {
        DrawnInPlace(p.sha256, LinksOf(a), LinksOf(s), picks, k);
      }
      PicksInPlace(s, picks, a);
    }
    if s <= a {
      PrefixAccepted(p, trusted, a, |s|);
      assert s == a[..|s|];
    }
  }

  lemma PicksInPlace(s: seq<Json>, picks: seq<nat>, a: seq<Json>)
    requires DrawnFrom(s, picks, a) && forall k | 0 <= k < |s| :: picks[k] == k
    ensures s <= a
  {
    if |s| > 0 {
      assert picks[|s| - 1] < |a|;
    }
    assert s == a[..|s|];
  }

  lemma LinkedHash(p: Platform, entry: Json, link: Link, before: Json)
    requires LinkIs(p, entry, link, before)
    ensures entry.Obj? && Get(entry, RECEIPT_HASH).Str?
  {
  }

  lemma LastHash(p: Platform, trusted: seq<Json>, es: seq<Json>)
    requires Accepted(p, trusted, es) && AllBound(es) && es != []
    ensures es[|es| - 1].Obj? && Get(es[|es| - 1], RECEIPT_HASH).Str?
  {
    AcceptedLink(p, trusted, es, |es| - 1);
    LinkedHash(p, es[|es| - 1], LinksOf(es)[|es| - 1], LinkBefore(es, |es| - 1, Null));
  }

  /** The tail of an accepted ledger is null if it is empty, and its last hash, a string, if not. */
  lemma AcceptedTail(p: Platform, trusted: seq<Json>, es: seq<Json>)
    requires Accepted(p, trusted, es) && AllBound(es)
    ensures TailOf(Entries(es)).Tail?
    ensures TailOf(Entries(es)).hash == if es == [] then Null else Get(es[|es| - 1], RECEIPT_HASH)
    ensures es != [] ==> TailOf(Entries(es)).hash.Str?
  {
    if es != [] {
      LastHash(p, trusted, es);
    }
  }

  lemma OtherHash(p: Platform, entry: Json, link: Link, before: Json, last: Json, head: Link, lastBefore: Json)
    requires LinkIs(p, entry, link, before) && LinkIs(p, last, head, lastBefore) && link.prev != Some(head.hash)
    ensures Get(last, RECEIPT_HASH) != before
  {
  }

  lemma NotHeadLink(p: Platform, a: seq<Json>, ls: seq<Link>, k: nat, n: nat)
    requires k < |a| && n + 1 == |a| == |ls| && ls[k].prev != Some(ls[n].hash)
    requires forall k | 0 <= k < |a| :: LinkIs(p, a[k], ls[k], LinkBefore(a, k, Null))
    ensures Get(a[n], RECEIPT_HASH) != LinkBefore(a, k, Null)
  {
    OtherHash(p, a[k], ls[k], LinkBefore(a, k, Null), a[n], ls[n], LinkBefore(a, n, Null));
  }

  lemma LinkedElsewhere(p: Platform, trusted: seq<Json>, a: seq<Json>, k: nat)
    requires Accepted(p, trusted, a) && AllBound(a) && k < |a|
    requires LinksOf(a)[k].prev != Some(Head(LinksOf(a)))
    ensures Get(a[|a| - 1], RECEIPT_HASH) != LinkBefore(a, k, Null)
  {
    forall k | 0 <= k < |a| ensures LinkIs(p, a[k], LinksOf(a)[k], LinkBefore(a, k, Null)) {
      AcceptedLink(p, trusted, a, k);
    }
    NotHeadLink(p, a, LinksOf(a), k, |a| - 1);
  }

  /** No link of an accepted ledger is its last hash, or two of its payloads collide. */
  lemma PastLink(p: Platform, trusted: seq<Json>, a: seq<Json>, k: nat)
    requires Accepted(p, trusted, a) && AllBound(a) && k < |a|
    ensures Get(a[|a| - 1], RECEIPT_HASH) != LinkBefore(a, k, Null) || CollisionWithin(p.sha256, LinksOf(a))
  {
    AcceptedIsChained(p, trusted, a);
    AcceptedPins(p, trusted, a, trusted, a);
    HeadNotLinked(p.sha256, LinksOf(a), k);
    if LinksOf(a)[k].prev != Some(Head(LinksOf(a))) {
      LinkedElsewhere(p, trusted, a, k);
    }
  }

  // ---------------------------------------------------------------- why wrappers must agree

  function Wrap(receipt: Json, link: Json): Json {
    Obj([Member(RECEIPT_HASH, Get(receipt, RECEIPT_HASH)), Member(PREVIOUS_RECEIPT_HASH, link), Member(RECEIPT, receipt)])
  }

  function WrapLink(receipts: seq<Json>, k: nat): Json
    requires k < |receipts|
  {
    if k == 0 then Null else Get(receipts[k - 1], RECEIPT_HASH)
  }

  /** Receipts in any order, each wrapped with the hash of the one before it. */
  function Rewrapped(receipts: seq<Json>): (es: seq<Json>)
    ensures |es| == |receipts|
  {
    seq(|receipts|, k requires 0 <= k < |receipts| => Wrap(receipts[k], WrapLink(receipts, k)))
  }

  lemma WrapSpec(receipt: Json, link: Json)
    ensures var e := Wrap(receipt, link);
      && Get(e, RECEIPT_HASH) == Get(receipt, RECEIPT_HASH)
      && Get(e, PREVIOUS_RECEIPT_HASH) == link
      && Get(e, RECEIPT) == receipt
  {
    var ms := Wrap(receipt, link).members;
    assert RECEIPT_HASH[0] == RECEIPT[0] == 'r' as int && |RECEIPT_HASH| == 12 && |RECEIPT| == 7;
    assert PREVIOUS_RECEIPT_HASH[0] == 'p' as int;
    assert ms[0].key == RECEIPT_HASH && ms[1].key == PREVIOUS_RECEIPT_HASH && ms[2].key == RECEIPT;
    LookupAt(ms, 0);
    LookupAt(ms, 1);
    LookupAt(ms, 2);
  }

  /** The chain verifier compares links on wrappers only: receipts that are sound one by one are accepted
      in any order and selection under fitting wrappers. Order is bound only where wrappers agree. */
  lemma LinksBindWrappersOnly(p: Platform, trusted: seq<Json>, receipts: seq<Json>)
    requires SignsSoundly(p)
    requires forall k | 0 <= k < |receipts| :: receipts[k].Obj? && ReceiptSound(p, trusted, receipts[k])
    ensures Accepted(p, trusted, Rewrapped(receipts))
  {
    forall k | 0 <= k < |receipts| ensures LinkedAt(p, trusted, Rewrapped(receipts), k, Null) {
      RewrappedLink(receipts, k);
      WrapLinkScalar(p, trusted, receipts, k);
      WrappedOk(p, trusted, receipts[k], WrapLink(receipts, k));
    }
  }

  lemma RewrappedLink(receipts: seq<Json>, k: nat)
    requires k < |receipts|
    ensures Rewrapped(receipts)[k] == Wrap(receipts[k], WrapLink(receipts, k))
    ensures LinkBefore(Rewrapped(receipts), k, Null) == WrapLink(receipts, k)
  {
    if k > 0 {
      WrapSpec(receipts[k - 1], WrapLink(receipts, k - 1));
    }
  }

  lemma WrapLinkScalar(p: Platform, trusted: seq<Json>, receipts: seq<Json>, k: nat)
    requires forall k | 0 <= k < |receipts| :: ReceiptSound(p, trusted, receipts[k])
    requires k < |receipts|
    ensures StrictEq(WrapLink(receipts, k), WrapLink(receipts, k))
  {
    if k > 0 {
      assert ReceiptSound(p, trusted, receipts[k - 1]);
    }
  }

  lemma WrappedOk(p: Platform, trusted: seq<Json>, receipt: Json, link: Json)
    requires SignsSoundly(p) && receipt.Obj? && ReceiptSound(p, trusted, receipt)
    requires StrictEq(link, link)
    ensures EntryOk(p, trusted, Wrap(receipt, link), link)
  {
    WrapSpec(receipt, link);
  }
}
