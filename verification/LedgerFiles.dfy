/** What a valid report on a ledger file says about the file: the tamper theorems on contents as they are read. */
module LedgerFiles {
  import opened Unicode
  import opened Values
  import opened Platform
  import opened Receipts
  import opened Ledger
  import opened Chain
  import opened HashChain
  import opened Tamper

  /** The chain verifier calls the file valid, and its wrappers agree with their receipts. */
  predicate Trustworthy(p: Platform, trusted: seq<Json>, content: Text) {
    && ValidFile(p, trusted, content)
    && ReadContent(p, content).Entries?
    && forall k | 0 <= k < |ReadContent(p, content).entries| :: WrapperAgrees(ReadContent(p, content).entries[k])
  }

  predicate ValidFile(p: Platform, trusted: seq<Json>, content: Text) {
    ReportOf(p, trusted, true, content).Report? && ReportOf(p, trusted, true, content).valid
  }

  lemma {:induction false} ParsedProper(p: Platform, rows: seq<Text>)
    requires ParsesValues(p) && ParseAll(p, rows).Some?
    ensures forall k | 0 <= k < |ParseAll(p, rows).value| ::
      Proper(ParseAll(p, rows).value[k]) && Dense(ParseAll(p, rows).value[k])
  {
    if rows != [] {
      DefinedIsDense(p.parse(rows[0]).value);
      ParsedProper(p, rows[1..]);
    }
  }

  lemma TrustworthyBound(p: Platform, trusted: seq<Json>, content: Text)
    requires ParsesValues(p) && Trustworthy(p, trusted, content)
    ensures Accepted(p, trusted, ReadContent(p, content).entries) && AllBound(ReadContent(p, content).entries)
  {
    var es := ReadContent(p, content).entries;
    ReportExact(p, trusted, true, content);
    ReadIsParseOfRows(p, content);
    ParsedProper(p, Rows(Lines(content)));
    forall k | 0 <= k < |es| ensures BoundAt(es, k) {
      assert WrapperAgrees(es[k]);
    }
  }

  /** Two trustworthy files with one tail hold the same bodies throughout, or two of their payloads collide;
      the two verifiers may trust different keys. */
  lemma TailCommitsToFile(p: Platform, trusted: seq<Json>, a: Text, trusted': seq<Json>, b: Text)
    requires ParsesValues(p) && Trustworthy(p, trusted, a) && Trustworthy(p, trusted', b)
    requires TailOf(ReadContent(p, a)) == TailOf(ReadContent(p, b))
    ensures var x, y := ReadContent(p, a).entries, ReadContent(p, b).entries;
      SameHistory(x, y) || CollisionFromHeads(p.sha256, LinksOf(x), LinksOf(y))
  {
    var x, y := ReadContent(p, a).entries, ReadContent(p, b).entries;
    TrustworthyBound(p, trusted, a);
    TrustworthyBound(p, trusted', b);
    AcceptedTail(p, trusted, x);
    AcceptedTail(p, trusted', y);
    if x != [] && y != [] {
      HeadCommits(p, trusted, x, trusted', y);
    }
  }

  /** In a trustworthy file no hash and no link occurs twice, or two of its payloads collide. */
  lemma FileHashesDistinct(p: Platform, trusted: seq<Json>, content: Text, i: nat, j: nat)
    requires ParsesValues(p) && Trustworthy(p, trusted, content) && i < j < |ReadContent(p, content).entries|
    ensures var es := ReadContent(p, content).entries;
      || CollisionWithin(p.sha256, LinksOf(es))
      || (&& Get(es[i], RECEIPT_HASH) != Get(es[j], RECEIPT_HASH)
          && PrevOf(ReceiptOf(es[i])) != PrevOf(ReceiptOf(es[j])))
  {
    TrustworthyBound(p, trusted, content);
    HashesDistinct(p, trusted, ReadContent(p, content).entries, i, j);
    OneSuccessorPerTail(p, trusted, ReadContent(p, content).entries, i, j);
  }

  /** Rows drawn from the rows of a file with any deletion, repetition and reordering. */
  predicate RowsDrawn(rows: seq<Text>, picks: seq<nat>, from: seq<Text>) {
    && |picks| == |rows|
    && forall k | 0 <= k < |rows| :: picks[k] < |from| && rows[k] == from[picks[k]]
  }

  lemma {:induction false} ParsedAt(p: Platform, rows: seq<Text>, k: nat)
    requires ParseAll(p, rows).Some? && k < |rows|
    ensures |ParseAll(p, rows).value| == |rows| && p.parse(rows[k]) == Some(ParseAll(p, rows).value[k])
  {
    ParseAllLength(p, rows);
    if k > 0 {
      ParsedAt(p, rows[1..], k - 1);
    }
  }

  lemma {:induction false} AllParse(p: Platform, rows: seq<Text>)
    requires forall k | 0 <= k < |rows| :: p.parse(rows[k]).Some?
    ensures ParseAll(p, rows).Some?
  {
    if rows != [] {
      AllParse(p, rows[1..]);
    }
  }

  lemma DrawnEntries(p: Platform, rows: seq<Text>, picks: seq<nat>, from: seq<Text>)
    requires RowsDrawn(rows, picks, from) && ParseAll(p, from).Some?
    ensures ParseAll(p, rows).Some? && DrawnFrom(ParseAll(p, rows).value, picks, ParseAll(p, from).value)
  {
    forall k | 0 <= k < |rows| ensures p.parse(rows[k]).Some? {
      ParsedAt(p, from, picks[k]);
    }
    AllParse(p, rows);
    ParseAllLength(p, rows);
    ParseAllLength(p, from);
    forall k | 0 <= k < |rows| ensures ParseAll(p, rows).value[k] == ParseAll(p, from).value[picks[k]] {
      ParsedAt(p, rows, k);
      ParsedAt(p, from, picks[k]);
    }
  }

  /** A file made of lines of a trustworthy file, in any order and number, is valid exactly if it reads as the
      beginning of that file; or two payloads of the original collide. */
  lemma OnlyBeginningsSurvive(p: Platform, trusted: seq<Json>, original: Text, altered: Text, picks: seq<nat>)
    requires ParsesValues(p) && Trustworthy(p, trusted, original)
    requires RowsDrawn(Rows(Lines(altered)), picks, Rows(Lines(original)))
    ensures ReadContent(p, altered).Entries?
    ensures var a, s := ReadContent(p, original).entries, ReadContent(p, altered).entries;
      (ValidFile(p, trusted, altered) <==> s <= a) || CollisionWithin(p.sha256, LinksOf(a))
  {
    ReadIsParseOfRows(p, original);
    ReadIsParseOfRows(p, altered);
    DrawnEntries(p, Rows(Lines(altered)), picks, Rows(Lines(original)));
    TrustworthyBound(p, trusted, original);
    ReportExact(p, trusted, true, altered);
    OnlyPrefixesSurvive(p, trusted, ReadContent(p, original).entries, ReadContent(p, altered).entries, picks);
  }
}
