/** Sign, append, verify: what the chain verifier says of a ledger the engine itself has grown. */
module Runs {
  import opened Unicode
  import opened Values
  import opened Canonical
  import opened Platform
  import opened Receipts
  import opened Ledger
  import opened Chain
  import opened HashChain
  import opened Tamper

  /** A receipt as it stands in the ledger. */
  function StoredReceipt(p: Platform, key: Text, body: Json): Json
    requires body.Obj?
  {
    Stored(SignReceiptBody(p, key, body))
  }

  /** The entry that ends up in the file when a receipt is appended. */
  function StoredEntry(receipt: Json, now: Text): Json {
    Stored(EntryOf(receipt, now))
  }

  lemma PrevOfStored(receipt: Json)
    requires Proper(receipt)
    ensures PrevOf(Stored(receipt)) == Stored(PrevOf(receipt))
  {
    StoredGet(receipt, CHAIN_REFERENCE);
    ProperGet(receipt, CHAIN_REFERENCE);
    StoredGet(Get(receipt, CHAIN_REFERENCE), PREVIOUS_RECEIPT_HASH);
    TruthyStored(Get(receipt, CHAIN_REFERENCE));
  }

  lemma StoredEntrySpec(receipt: Json, now: Text)
    requires Proper(receipt)
    ensures var e := StoredEntry(receipt, now);
      && Proper(e)
      && Get(e, RECEIPT_HASH) == Stored(Get(receipt, RECEIPT_HASH))
      && Get(e, PREVIOUS_RECEIPT_HASH) == Stored(PrevOf(receipt))
      && Get(e, RECEIPT) == Stored(receipt)
  {
    var e := EntryOf(receipt, now);
    EntrySpec(receipt, now);
    StoredProper(e);
    StoredGet(e, RECEIPT_HASH);
    StoredGet(e, PREVIOUS_RECEIPT_HASH);
    StoredGet(e, RECEIPT);
  }

  /** Appending writes the wrapper in agreement with the receipt. */
  lemma StoredEntryBound(receipt: Json, now: Text)
    requires Proper(receipt)
    ensures Bound(StoredEntry(receipt, now))
  {
    StoredDense(EntryOf(receipt, now));
    StoredEntrySpec(receipt, now);
    PrevOfStored(receipt);
    StoredGet(receipt, RECEIPT_HASH);
  }

  lemma StoredSealSpec(p: Platform, key: Text, body: Json)
    requires BodyShape(body)
    ensures var r := StoredReceipt(p, key, body);
      && Get(r, RECEIPT_HASH) == Str(p.sha256(Legacy(body)))
      && Get(r, SIGNATURE) == Str(p.sign(key, Legacy(body)))
      && Get(r, PUBLIC_KEY) == Str(p.publicKey(key))
  {
    var signed := SignReceiptBody(p, key, body);
    assert SEAL_KEYS[0] == RECEIPT_HASH && SEAL_KEYS[1] == SIGNATURE && SEAL_KEYS[3] == PUBLIC_KEY;
    SealSpec(p, key, body);
    SignedSpec(p, key, body, RECEIPT_HASH);
    SignedSpec(p, key, body, SIGNATURE);
    SignedSpec(p, key, body, PUBLIC_KEY);
    StoredGet(signed, RECEIPT_HASH);
    StoredGet(signed, SIGNATURE);
    StoredGet(signed, PUBLIC_KEY);
  }

  /** A stored receipt is sound exactly when its body survives storage, short of a collision between the
      signed payload and the one recomputed. */
  lemma StoredReceiptSound(p: Platform, trusted: seq<Json>, key: Text, body: Json)
    requires SignsSoundly(p) && BodyShape(body) && Includes(trusted, Str(p.publicKey(key)))
    ensures Survives(body) ==> ReceiptSound(p, trusted, StoredReceipt(p, key, body))
    ensures ReceiptSound(p, trusted, StoredReceipt(p, key, body)) ==>
      Survives(body) || Collides(p.sha256, Payload(StoredReceipt(p, key, body)), Legacy(body))
  {
    StoredSealSpec(p, key, body);
    StoredPayloadRecomputes(p, key, body);
  }

  /** Signed by a trusted key over a body that survives storage. */
  predicate GenuineBy(p: Platform, trusted: seq<Json>, receipt: Json, key: Text, body: Json) {
    && BodyShape(body) && Writable(body) && Survives(body)
    && Includes(trusted, Str(p.publicKey(key)))
    && receipt == SignReceiptBody(p, key, body)
  }

  ghost predicate Genuine(p: Platform, trusted: seq<Json>, receipt: Json) {
    exists key, body :: GenuineBy(p, trusted, receipt, key, body)
  }

  lemma SignedWritable(p: Platform, key: Text, body: Json)
    requires body.Obj? && Writable(body)
    ensures Writable(SignReceiptBody(p, key, body))
  {
    var seal := Seal(p, key, body);
    assert RECEIPT_HASH[0] == 'r' as int && SIGNATURE[0] == 's' as int
      && SIGNATURE_ALGORITHM[0] == 's' as int && PUBLIC_KEY[0] == 'p' as int;
    assert forall i | 0 <= i < |seal| :: NamedKey(seal[i].key) && Writable(seal[i].value);
  }

  /** A readable, accepted ledger whose wrappers agree with their receipts. */
  predicate Grown(p: Platform, trusted: seq<Json>, content: Text) {
    && Framed(content)
    && ReadContent(p, content).Entries?
    && Accepted(p, trusted, ReadContent(p, content).entries)
    && AllBound(ReadContent(p, content).entries)
  }

  lemma EmptyIsGrown(p: Platform, trusted: seq<Json>)
    ensures Grown(p, trusted, []) && ReadContent(p, []) == Entries([])
  {
    EmptyReads(p);
  }

  lemma AcceptedSnoc(p: Platform, trusted: seq<Json>, es: seq<Json>, e: Json)
    requires Accepted(p, trusted, es) && AllBound(es) && Bound(e)
    requires EntryOk(p, trusted, e, if es == [] then Null else Get(es[|es| - 1], RECEIPT_HASH))
    ensures Accepted(p, trusted, es + [e]) && AllBound(es + [e])
  {
    var all := es + [e];
    forall k | 0 <= k < |all| ensures LinkedAt(p, trusted, all, k, Null) && BoundAt(all, k) {
      if k < |es| {
        assert LinkedAt(p, trusted, es, k, Null) && BoundAt(es, k);
        assert LinkBefore(all, k, Null) == LinkBefore(es, k, Null);
      }
    }
  }

  /** The tail of a grown ledger is null or a hash. */
  lemma GrownTail(p: Platform, trusted: seq<Json>, content: Text)
    requires Grown(p, trusted, content)
    ensures TailOf(ReadContent(p, content)).Tail?
    ensures var hash := TailOf(ReadContent(p, content)).hash; hash.Null? || hash.Str?
  {
    AcceptedTail(p, trusted, ReadContent(p, content).entries);
  }

  lemma AppendedLinks(p: Platform, content: Text, receipt: Json, now: Text)
    requires AppendOutcome(p, content, receipt, now).Appended?
    ensures TailOf(ReadContent(p, content)) == Tail(PrevOf(receipt))
  {
  }

  /** A stale link is refused: a receipt that links to any position but the end is not appended, or two payloads of the
      ledger collide. */
  lemma StaleLinkRefused(p: Platform, trusted: seq<Json>, content: Text, k: nat, receipt: Json, now: Text)
    requires Grown(p, trusted, content) && k < |ReadContent(p, content).entries|
    requires PrevOf(receipt) == LinkBefore(ReadContent(p, content).entries, k, Null)
    ensures !AppendOutcome(p, content, receipt, now).Appended?
      || CollisionWithin(p.sha256, LinksOf(ReadContent(p, content).entries))
  {
    PastLink(p, trusted, ReadContent(p, content).entries, k);
    AcceptedTail(p, trusted, ReadContent(p, content).entries);
    if AppendOutcome(p, content, receipt, now).Appended? {
      AppendedLinks(p, content, receipt, now);
    }
  }

  lemma ReceiptFields(p: Platform, key: Text, body: Json)
    requires SignsSoundly(p) && BodyShape(body)
    ensures var r := SignReceiptBody(p, key, body);
      && Truthy(Get(r, RECEIPT_HASH)) && Truthy(Get(r, SIGNATURE))
      && PrevOf(r) == PrevOf(body)
      && Get(r, APPROVAL) == Get(body, APPROVAL)
      && Proper(r)
  {
    var all := BODY_KEYS + [MUS_UNIT_ID];
    assert all[7] == CHAIN_REFERENCE && all[6] == APPROVAL;
    assert SEAL_KEYS[0] == RECEIPT_HASH && SEAL_KEYS[1] == SIGNATURE;
    SealSpec(p, key, body);
    SignedSpec(p, key, body, RECEIPT_HASH);
    SignedSpec(p, key, body, SIGNATURE);
    SignedSpec(p, key, body, CHAIN_REFERENCE);
    SignedSpec(p, key, body, APPROVAL);
  }

  /** The entry written for a genuine receipt continues the chain it was built against. */
  lemma StoredEntryOk(p: Platform, trusted: seq<Json>, receipt: Json, now: Text)
    requires SignsSoundly(p) && Genuine(p, trusted, receipt)
    requires StrictEq(PrevOf(receipt), PrevOf(receipt))
    ensures Proper(receipt) && Writable(receipt)
    ensures EntryOk(p, trusted, StoredEntry(receipt, now), PrevOf(receipt))
  {
    var key, body :| GenuineBy(p, trusted, receipt, key, body);
    SignedWritable(p, key, body);
    SignedSpec(p, key, body, RECEIPT_HASH);
    StoredEntrySpec(receipt, now);
    StoredReceiptSound(p, trusted, key, body);
    StoredSealSpec(p, key, body);
    StoredGet(receipt, RECEIPT_HASH);
  }

  /** A receipt offered to the ledger, with the time of the attempt. */
  datatype Offer = Offer(receipt: Json, now: Text)

  /** The receipt is a value that storage can hold. */
  predicate Storing(o: Offer) { Proper(o.receipt) && Writable(o.receipt) }

  /** An append is read back, behind what was there. */
  lemma AppendReads(p: Platform, content: Text, o: Offer)
    requires ReadsBack(p) && Framed(content) && Storing(o)
    requires AppendOutcome(p, content, o.receipt, o.now).Appended?
    ensures Framed(AfterAppend(p, content, o.receipt, o.now)) && ReadContent(p, content).Entries?
    ensures ReadContent(p, AfterAppend(p, content, o.receipt, o.now))
      == Entries(ReadContent(p, content).entries + [StoredEntry(o.receipt, o.now)])
  {
    EntrySpec(o.receipt, o.now);
    ReadAfterAppend(p, content, EntryOf(o.receipt, o.now));
  }

  /** A genuine receipt that is appended leaves the ledger accepted, one entry longer. */
  lemma AppendKeepsGrown(p: Platform, trusted: seq<Json>, content: Text, receipt: Json, now: Text)
    requires ReadsBack(p) && SignsSoundly(p) && Grown(p, trusted, content) && Genuine(p, trusted, receipt)
    requires AppendOutcome(p, content, receipt, now).Appended?
    ensures var after := AfterAppend(p, content, receipt, now);
      && Grown(p, trusted, after)
      && ReadContent(p, after).entries == ReadContent(p, content).entries + [StoredEntry(receipt, now)]
  {
    var es := ReadContent(p, content).entries;
    StoredEntryOk(p, trusted, receipt, now);
    AppendReads(p, content, Offer(receipt, now));
    StoredEntryBound(receipt, now);
    AcceptedSnoc(p, trusted, es, StoredEntry(receipt, now));
  }

  // ---------------------------------------------------------------- whole runs

  /** The file after a run of append attempts, accepted and rejected. */
  function Run(p: Platform, content: Text, offers: seq<Offer>): Text
    decreases |offers|
  {
    if offers == [] then content
    else Run(p, AfterAppend(p, content, offers[0].receipt, offers[0].now), offers[1..])
  }

  /** The offers that the ledger takes. */
  function LandedOffers(p: Platform, content: Text, offers: seq<Offer>): seq<Offer>
    decreases |offers|
  {
    if offers == [] then []
    else
      (if AppendOutcome(p, content, offers[0].receipt, offers[0].now).Appended? then [offers[0]] else [])
      + LandedOffers(p, AfterAppend(p, content, offers[0].receipt, offers[0].now), offers[1..])
  }

  /** Whatever the ledger takes in a run carries a hash and a signature. */
  lemma {:induction false} LandedCarry(p: Platform, content: Text, offers: seq<Offer>, o: Offer)
    requires o in LandedOffers(p, content, offers)
    ensures Truthy(Get(o.receipt, RECEIPT_HASH)) && Truthy(Get(o.receipt, SIGNATURE))
    decreases |offers|
  {
    var first := offers[0];
    AppendedExactly(p, content, first.receipt, first.now);
    if o in LandedOffers(p, AfterAppend(p, content, first.receipt, first.now), offers[1..]) {
      LandedCarry(p, AfterAppend(p, content, first.receipt, first.now), offers[1..], o);
    }
  }

  function Landed(p: Platform, content: Text, offers: seq<Offer>): nat {
    |LandedOffers(p, content, offers)|
  }

  function StoredEntries(offers: seq<Offer>): (es: seq<Json>)
    ensures |es| == |offers|
  {
    seq(|offers|, k requires 0 <= k < |offers| => StoredEntry(offers[k].receipt, offers[k].now))
  }

  lemma StoredEntriesCons(o: Offer, rest: seq<Offer>)
    ensures StoredEntries([o] + rest) == [StoredEntry(o.receipt, o.now)] + StoredEntries(rest)
  {
  }

  /** The round trip of the ledger file: after any number of append attempts it reads as what it held before and
      exactly the entries that were appended, in order. */
  lemma {:induction false} RunReads(p: Platform, content: Text, offers: seq<Offer>)
    requires ReadsBack(p) && Framed(content) && ReadContent(p, content).Entries?
    requires forall o | o in LandedOffers(p, content, offers) :: Storing(o)
    ensures Framed(Run(p, content, offers))
    ensures ReadContent(p, Run(p, content, offers))
      == Entries(ReadContent(p, content).entries + StoredEntries(LandedOffers(p, content, offers)))
    decreases |offers|
  {
    var es := ReadContent(p, content).entries;
    if offers == [] {
      assert es + [] == es;
    } else {
      var o := offers[0];
      var after := AfterAppend(p, content, o.receipt, o.now);
      var rest := LandedOffers(p, after, offers[1..]);
      if AppendOutcome(p, content, o.receipt, o.now).Appended? {
        assert LandedOffers(p, content, offers) == [o] + rest;
        AppendReads(p, content, o);
        RunReads(p, after, offers[1..]);
        StoredEntriesCons(o, rest);
        Assoc(es, [StoredEntry(o.receipt, o.now)], StoredEntries(rest));
      } else {
        assert LandedOffers(p, content, offers) == rest;
        RunReads(p, after, offers[1..]);
      }
    }
  }

  lemma TailOfStored(es: seq<Json>, landed: seq<Offer>)
    requires forall o | o in landed :: Storing(o)
    ensures TailOf(Entries(es + StoredEntries(landed)))
      == if landed == [] then TailOf(Entries(es))
         else Tail(Stored(Get(landed[|landed| - 1].receipt, RECEIPT_HASH)))
  {
    if landed == [] {
      assert es + StoredEntries(landed) == es;
    } else {
      var last := landed[|landed| - 1];
      assert last in landed;
      StoredEntryHash(last.receipt, last.now);
    }
  }

  /** And its tail is the hash appended last, the old tail if nothing was appended. */
  lemma RunTail(p: Platform, content: Text, offers: seq<Offer>)
    requires ReadsBack(p) && Framed(content) && ReadContent(p, content).Entries?
    requires forall o | o in LandedOffers(p, content, offers) :: Storing(o)
    ensures var landed := LandedOffers(p, content, offers);
      TailOf(ReadContent(p, Run(p, content, offers)))
      == if landed == [] then TailOf(ReadContent(p, content))
         else Tail(Stored(Get(landed[|landed| - 1].receipt, RECEIPT_HASH)))
  {
    RunReads(p, content, offers);
    TailOfStored(ReadContent(p, content).entries, LandedOffers(p, content, offers));
  }

  /** Whatever the ledger takes is genuine; what it rejects may be anything. */
  ghost predicate TakesGenuine(p: Platform, trusted: seq<Json>, content: Text, offers: seq<Offer>)
    decreases |offers|
  {
    offers == [] ||
    (var o := offers[0];
     && (AppendOutcome(p, content, o.receipt, o.now).Appended? ==> Genuine(p, trusted, o.receipt))
     && TakesGenuine(p, trusted, AfterAppend(p, content, o.receipt, o.now), offers[1..]))
  }

  lemma {:induction false} RunKeepsGrown(p: Platform, trusted: seq<Json>, content: Text, offers: seq<Offer>)
    requires ReadsBack(p) && SignsSoundly(p) && Grown(p, trusted, content)
    requires TakesGenuine(p, trusted, content, offers)
    ensures var after := Run(p, content, offers);
      && Grown(p, trusted, after)
      && |ReadContent(p, after).entries| == |ReadContent(p, content).entries| + Landed(p, content, offers)
      && ReadContent(p, content).entries <= ReadContent(p, after).entries
    decreases |offers|
  {
    if offers != [] {
      var o := offers[0];
      if AppendOutcome(p, content, o.receipt, o.now).Appended? {
        AppendKeepsGrown(p, trusted, content, o.receipt, o.now);
      }
      RunKeepsGrown(p, trusted, AfterAppend(p, content, o.receipt, o.now), offers[1..]);
    }
  }

  /** After any run of appends from the empty ledger, the chain verifier reports valid, with exactly as
      many records as appends succeeded. */
  lemma RunVerifies(p: Platform, trusted: seq<Json>, offers: seq<Offer>)
    requires ReadsBack(p) && SignsSoundly(p) && TakesGenuine(p, trusted, [], offers)
    ensures ReportOf(p, trusted, true, Run(p, [], offers)) == Report(true, Landed(p, [], offers), [])
  {
    EmptyIsGrown(p, trusted);
    RunKeepsGrown(p, trusted, [], offers);
    ReportExact(p, trusted, true, Run(p, [], offers));
  }

  /** The very receipt last accepted fails verification exactly when its body does not survive storage,
      short of a collision of its two payloads. */
  lemma AppendVerifiesExactly(p: Platform, trusted: seq<Json>, content: Text, key: Text, body: Json, now: Text)
    requires ReadsBack(p) && SignsSoundly(p) && Grown(p, trusted, content)
    requires BodyShape(body) && Writable(body) && Includes(trusted, Str(p.publicKey(key)))
    requires AppendOutcome(p, content, SignReceiptBody(p, key, body), now).Appended?
    ensures var report := ReportOf(p, trusted, true, AfterAppend(p, content, SignReceiptBody(p, key, body), now));
      && (Survives(body) ==> report.Report? && report.valid)
      && (report.Report? && report.valid ==>
            Survives(body) || Collides(p.sha256, Payload(StoredReceipt(p, key, body)), Legacy(body)))
  {
    var receipt := SignReceiptBody(p, key, body);
    var after := AfterAppend(p, content, receipt, now);
    ReportExact(p, trusted, true, after);
    if Survives(body) {
      assert GenuineBy(p, trusted, receipt, key, body);
      AppendKeepsGrown(p, trusted, content, receipt, now);
    } else {
      AppendedReceiptIn(p, trusted, content, key, body, now);
      StoredReceiptSound(p, trusted, key, body);
    }
  }

  lemma AppendedReceiptIn(p: Platform, trusted: seq<Json>, content: Text, key: Text, body: Json, now: Text)
    requires ReadsBack(p) && Grown(p, trusted, content) && BodyShape(body) && Writable(body)
    requires AppendOutcome(p, content, SignReceiptBody(p, key, body), now).Appended?
    ensures var read := ReadContent(p, AfterAppend(p, content, SignReceiptBody(p, key, body), now));
      && read.Entries?
      && (Accepted(p, trusted, read.entries) ==> ReceiptSound(p, trusted, StoredReceipt(p, key, body)))
  {
    var receipt := SignReceiptBody(p, key, body);
    SignedWritable(p, key, body);
    SignedSpec(p, key, body, RECEIPT_HASH);
    AppendReads(p, content, Offer(receipt, now));
    StoredEntrySpec(receipt, now);
    var es := ReadContent(p, AfterAppend(p, content, receipt, now)).entries;
    if Accepted(p, trusted, es) {
      assert LinkedAt(p, trusted, es, |es| - 1, Null);
    }
  }
}
