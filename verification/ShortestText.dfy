/** The printed text of a value is the one shortest among all well-formed texts that decode to it. */
module ShortestText {
  import opened Unicode
  import opened Values
  import opened JsonText

  /** Where `t` continues with `rest`, the text read is longer than `best`, or it is `best`. */
  predicate Best(best: Text, t: Text, rest: Text) {
    |best| + |rest| < |t| || t == best + rest
  }

  lemma BestThen(a: Text, t: Text, b: Text, mid: Text, rest: Text)
    requires Best(a, t, mid) && Best(b, mid, rest)
    ensures Best(a + b, t, rest)
  {
    Assoc(a, b, rest);
  }

  lemma BestHead(u: Unit, t: Text, b: Text, rest: Text)
    requires t != [] && t[0] == u && Best(b, t[1..], rest)
    ensures Best([u] + b, t, rest)
  {
    assert t == [u] + t[1..];
    BestThen([u], t, b, t[1..], rest);
  }

  lemma TailWellFormed(t: Text)
    requires WellFormed(t) && t != [] && !High(t[0])
    ensures !Low(t[0]) && WellFormed(t[1..])
  {
  }

  lemma {:induction false} AsciiThen(t: Text, n: nat)
    requires WellFormed(t) && n <= |t| && Ascii(t[..n])
    ensures WellFormed(t[n..])
  {
    AsciiWellFormed(t[..n]);
    WellFormedConcat(t[..n], t[n..]);
    assert t == t[..n] + t[n..];
  }

  // ---------------------------------------------------------------- strings

  lemma HexUnique(h: Unit)
    requires IsHex(h)
    ensures 0 <= HexValue(h) < 16 && HexDigit(HexValue(h)) == h
  {
  }

  lemma LastHex(q: int, d: int)
    requires 0 <= q && 0 <= d < 16
    ensures (q * 0x10 + d) / 0x10 == q && (q * 0x10 + d) % 0x10 == d
  {
  }

  lemma HexShifts(u: int)
    requires 0 <= u
    ensures u / 0x100 == u / 0x10 / 0x10
    ensures u / 0x1000 == u / 0x100 / 0x10
  {
  }

  lemma Hex4Unique(a: int, b: int, c: int, d: int, u: Unit)
    requires 0 <= a < 16 && 0 <= b < 16 && 0 <= c < 16 && 0 <= d < 16
    requires u == a * 0x1000 + b * 0x100 + c * 0x10 + d
    ensures Hex4(u) == [HexDigit(a), HexDigit(b), HexDigit(c), HexDigit(d)]
  {
    var ab, abc := a * 0x10 + b, (a * 0x10 + b) * 0x10 + c;
    assert u == abc * 0x10 + d;
    HexShifts(u);
    LastHex(abc, d);
    LastHex(ab, c);
    LastHex(a, b);
  }

  lemma EscapeLength(u: Unit)
    ensures |Escape(u)| <= 6
    ensures |Escape(u)| == 6 ==> Escape(u) == [BACKSLASH, 0x75] + Hex4(u)
    ensures High(u) || Low(u) ==> |Escape(u)| == 6
  {
  }

  lemma HexEscapeBest(t: Text, u: Unit)
    requires |t| >= 6 && t[0] == BACKSLASH && t[1] == 0x75
    requires IsHex(t[2]) && IsHex(t[3]) && IsHex(t[4]) && IsHex(t[5])
    requires u == HexValue(t[2]) * 0x1000 + HexValue(t[3]) * 0x100 + HexValue(t[4]) * 0x10 + HexValue(t[5])
    ensures Best(Escape(u), t, t[6..])
  {
    HexUnique(t[2]);
    HexUnique(t[3]);
    HexUnique(t[4]);
    HexUnique(t[5]);
    Hex4Unique(HexValue(t[2]), HexValue(t[3]), HexValue(t[4]), HexValue(t[5]), u);
    EscapeLength(u);
    assert t == t[..6] + t[6..];
    assert t[..6] == [BACKSLASH, 0x75] + Hex4(u);
  }

  lemma ShortEscapeBest(t: Text, u: Unit)
    requires |t| >= 2 && t[0] == BACKSLASH && t[1] != 0x75 && DecodeEscape(t[1..]) == Got(u, t[2..])
    ensures Best(Escape(u), t, t[2..])
  {
    assert t == [t[0], t[1]] + t[2..];
  }

  lemma HexUnitBest(t: Text, u: Unit, rest: Text)
    requires WellFormed(t) && |t| >= 2 && t[0] == BACKSLASH && t[1] == 0x75 && DecodeEscape(t[1..]) == Got(u, rest)
    ensures Best(Escape(u), t, rest) && WellFormed(rest)
  {
    assert t[1..][5..] == t[6..];
    assert t[1..][1] == t[2] && t[1..][2] == t[3] && t[1..][3] == t[4] && t[1..][4] == t[5];
    HexEscapeBest(t, u);
    assert Ascii(t[..6]);
    AsciiThen(t, 6);
  }

  lemma ShortUnitBest(t: Text, u: Unit, rest: Text)
    requires WellFormed(t) && |t| >= 2 && t[0] == BACKSLASH && t[1] != 0x75 && DecodeEscape(t[1..]) == Got(u, rest)
    ensures Best(Escape(u), t, rest) && WellFormed(rest)
  {
    assert t[1..][1..] == t[2..];
    ShortEscapeBest(t, u);
    assert Ascii(t[..2]);
    AsciiThen(t, 2);
  }

  /** However a unit is written, it is not written shorter than here. */
  lemma UnitBest(t: Text, u: Unit, rest: Text)
    requires WellFormed(t) && DecodeUnit(t) == Got(u, rest) && !High(t[0])
    ensures Best(Escape(u), t, rest) && WellFormed(rest)
    ensures High(u) ==> t[0] == BACKSLASH
  {
    TailWellFormed(t);
    if t[0] != BACKSLASH {
      assert t == [u] + rest;
    } else if t[1] == 0x75 {
      HexUnitBest(t, u, rest);
    } else {
      ShortUnitBest(t, u, rest);
    }
  }

  lemma LastAt(s: Text, n: nat, k: nat)
    requires k < n <= |s|
    ensures Last(s, n)[k] == s[|s| - n + k]
  {
  }

  lemma LastShorter(s: Text, n: nat, k: nat)
    requires k <= n <= |s|
    ensures Last(s, n - k) == Last(s, n)[k..]
  {
  }

  lemma PairInLast(s: Text, n: nat)
    requires 0 < n <= |s|
    ensures PairAt(s, |s| - n) <==> PairAt(Last(s, n), 0)
    ensures PairAt(s, |s| - n) ==> s[|s| - n..|s| - n + 2] == Last(s, n)[..2]
    ensures s[|s| - n] == Last(s, n)[0]
  {
    LastAt(s, n, 0);
    if n > 1 {
      LastAt(s, n, 1);
    }
  }

  /** What is printed of the last units depends on nothing before them. */
  lemma {:induction false} QuoteOfLast(s: Text, s': Text, n: nat)
    requires n <= |s| && n <= |s'| && Last(s, n) == Last(s', n)
    ensures QuoteLast(s, n) == QuoteLast(s', n)
    decreases n
  {
    if n > 0 {
      PairInLast(s, n);
      PairInLast(s', n);
      var k := if PairAt(s, |s| - n) then 2 else 1;
      LastShorter(s, n, k);
      LastShorter(s', n, k);
      QuoteOfLast(s, s', n - k);
    }
  }

  lemma QuoteOfTail(s: Text, tail: Text)
    requires |tail| <= |s| && Last(s, |tail|) == tail
    ensures QuoteLast(s, |tail|) == QuoteBody(tail)
  {
    assert Last(tail, |tail|) == tail;
    QuoteOfLast(s, tail, |tail|);
  }

  lemma QuoteCons(u: Unit, s: Text)
    requires !PairAt([u] + s, 0)
    ensures QuoteBody([u] + s) == Escape(u) + QuoteBody(s)
  {
    QuoteOfTail([u] + s, s);
  }

  lemma QuotePair(h: Unit, l: Unit, s: Text)
    requires High(h) && Low(l)
    ensures QuoteBody([h] + ([l] + s)) == [h, l] + QuoteBody(s)
  {
    var all := [h] + ([l] + s);
    QuoteOfTail(all, s);
    assert all[0..2] == [h, l];
  }

  lemma EscapedPairLonger(t: Text, u: Unit, after: Text, s: Text, rest: Text)
    requires Best(Escape(u), t, after) && Best(QuoteBody(s) + [QUOTE], after, rest)
    requires PairAt([u] + s, 0)
    ensures Best(QuoteBody([u] + s) + [QUOTE], t, rest)
  {
    var l, tail := s[0], s[1..];
    assert s == [l] + tail;
    EscapeLength(u);
    EscapeLength(l);
    QuoteCons(l, tail);
    QuotePair(u, l, tail);
  }

  lemma PlainHead(t: Text, s: Text, rest: Text)
    requires t != [] && (High(t[0]) || Low(t[0])) && DecodeString(t) == Got(s, rest)
    ensures s != [] && s[0] == t[0] && DecodeString(t[1..]) == Got(s[1..], rest)
  {
    assert DecodeUnit(t) == Got(t[0], t[1..]);
    var tail := DecodeString(t[1..]).val;
    assert s == [t[0]] + tail;
    assert s[1..] == tail;
  }

  lemma PlainPair(t: Text, s: Text, rest: Text)
    requires WellFormed(t) && t != [] && High(t[0]) && DecodeString(t) == Got(s, rest)
    ensures PairAt(t, 0) && WellFormed(t[2..]) && |s| >= 2 && s == [t[0]] + ([t[1]] + s[2..])
    ensures DecodeString(t[2..]) == Got(s[2..], rest)
  {
    PlainHead(t, s, rest);
    PlainHead(t[1..], s[1..], rest);
    assert t[1..][1..] == t[2..] && s[1..][1..] == s[2..];
  }

  /** No well-formed text of a string is shorter than the one printed, and no other is as short. */
  lemma {:induction false} StringBest(t: Text, s: Text, rest: Text)
    requires WellFormed(t) && DecodeString(t) == Got(s, rest)
    ensures Best(QuoteBody(s) + [QUOTE], t, rest) && WellFormed(rest)
    decreases |t|
  {
    if t[0] == QUOTE {
      TailWellFormed(t);
      assert t == [QUOTE] + rest;
      assert QuoteBody(s) == [];
    } else if High(t[0]) {
      PlainPair(t, s, rest);
      StringBest(t[2..], s[2..], rest);
      QuotePair(t[0], t[1], s[2..]);
      assert t == [t[0], t[1]] + t[2..];
      BestThen([t[0], t[1]], t, QuoteBody(s[2..]) + [QUOTE], t[2..], rest);
      Assoc([t[0], t[1]], QuoteBody(s[2..]), [QUOTE]);
    } else {
      var u, after := DecodeUnit(t).val, DecodeUnit(t).rest;
      UnitBest(t, u, after);
      var tail := DecodeString(after).val;
      StringBest(after, tail, rest);
      assert s == [u] + tail;
      if PairAt(s, 0) {
        EscapedPairLonger(t, u, after, tail, rest);
      } else {
        QuoteCons(u, tail);
        BestThen(Escape(u), t, QuoteBody(tail) + [QUOTE], after, rest);
        Assoc(Escape(u), QuoteBody(tail), [QUOTE]);
      }
    }
  }

  // ---------------------------------------------------------------- numbers and words

  lemma {:induction false} DigitsBest(d: Text)
    requires d != [] && forall i | 0 <= i < |d| :: Digit(d[i])
    ensures NatValue(d) >= 0
    ensures var best := PrintNat(NatValue(d)); |best| < |d| || d == best
  {
    var n := |d| - 1;
    var m := if n == 0 then 0 else NatValue(d[..n]);
    var x := d[n] as int - 0x30;
    if n > 0 {
      DigitsBest(d[..n]);
    }
    assert d == d[..n] + [0x30 + x];
    assert NatValue(d) == m * 10 + x;
    if m == 0 {
      assert PrintNat(x) == [0x30 + x];
    } else {
      assert PrintNat(m * 10 + x) == PrintNat(m) + [0x30 + x];
    }
  }

  lemma RunBest(t: Text, k: nat)
    requires WellFormed(t) && 0 < k <= |t| && forall i | 0 <= i < k :: Digit(t[i])
    ensures NatValue(t[..k]) >= 0 && Best(PrintNat(NatValue(t[..k])), t, t[k..]) && WellFormed(t[k..])
  {
    DigitsBest(t[..k]);
    AsciiThen(t, k);
    assert t == t[..k] + t[k..];
  }

  lemma NumberBest(t: Text, n: int, rest: Text)
    requires WellFormed(t) && DecodeNumber(t) == Got(Num(n), rest)
    ensures Best(PrintInt(n), t, rest) && WellFormed(rest)
  {
    if t[0] == MINUS {
      TailWellFormed(t);
      RunBest(t[1..], Digits(t[1..]));
      if n < 0 {
        BestHead(MINUS, t, PrintNat(-n), rest);
      } else {
        assert PrintInt(0) == [0x30];
      }
    } else {
      RunBest(t, Digits(t));
    }
  }

  lemma WordIs(word: Text, t: Text)
    requires WellFormed(t) && Ascii(word) && word <= t
    ensures t == word + t[|word|..] && WellFormed(t[|word|..])
  {
    AsciiThen(t, |word|);
  }

  lemma WordBest(t: Text, v: Json, rest: Text)
    requires WellFormed(t) && DecodeWord(t) == Got(v, rest)
    ensures Best(Print(v), t, rest) && WellFormed(rest)
    ensures v.Undef? || v.Null? || v.Bool?
  {
    if NULL <= t {
      WordIs(NULL, t);
    } else if TRUE <= t {
      WordIs(TRUE, t);
    } else if FALSE <= t {
      WordIs(FALSE, t);
    } else {
      WordIs(UNDEFINED, t);
    }
  }

  // ---------------------------------------------------------------- values

  function ItemText(v: Json): Text {
    if v.Undef? then [] else Print(v)
  }

  lemma QuoteBest(t: Text, s: Text, rest: Text)
    requires WellFormed(t) && t != [] && t[0] == QUOTE && DecodeString(t[1..]) == Got(s, rest)
    ensures Best(Quote(s), t, rest) && WellFormed(rest)
  {
    TailWellFormed(t);
    StringBest(t[1..], s, rest);
    BestHead(QUOTE, t, QuoteBody(s) + [QUOTE], rest);
    Assoc([QUOTE], QuoteBody(s), [QUOTE]);
  }

  lemma BracketedBest(open: Unit, t: Text, body: Text, mid: Text, close: Unit)
    requires t != [] && t[0] == open && Best(body, t[1..], mid)
    requires WellFormed(mid) && mid != [] && mid[0] == close && !High(close)
    ensures Best([open] + body + [close], t, mid[1..]) && WellFormed(mid[1..])
  {
    TailWellFormed(mid);
    BestHead(open, t, body, mid);
    assert mid == [close] + mid[1..];
    BestThen([open] + body, t, [close], mid, mid[1..]);
  }

  lemma EmptyBest(t: Text, open: Unit, close: Unit)
    requires WellFormed(t) && |t| > 1 && t[0] == open && t[1] == close && open < 0x80 && close < 0x80
    ensures Best([open] + [] + [close], t, t[2..]) && WellFormed(t[2..])
  {
    assert t[..2] == [open, close];
    AsciiThen(t, 2);
    assert t == [open, close] + t[2..];
  }

  lemma {:induction false} ValueBest(t: Text, v: Json, rest: Text)
    requires WellFormed(t) && Decode(t) == Got(v, rest)
    ensures Best(Print(v), t, rest) && WellFormed(rest)
    decreases |t|, 0
  {
    if t[0] == LBRACE {
      if |t| > 1 && t[1] == RBRACE {
        EmptyBest(t, LBRACE, RBRACE);
      } else {
        TailWellFormed(t);
        var mid := DecodeMembers(t[1..]).rest;
        MembersBest(t[1..], v.members, mid);
        BracketedBest(LBRACE, t, Join(MemberTexts(PrintMembers(v.members))), mid, RBRACE);
      }
    } else if t[0] == LBRACKET {
      if |t| > 1 && t[1] == RBRACKET {
        EmptyBest(t, LBRACKET, RBRACKET);
      } else {
        TailWellFormed(t);
        var mid := DecodeItems(t[1..]).rest;
        ItemsBest(t[1..], v.items, mid);
        BracketedBest(LBRACKET, t, Join(PrintItems(v.items)), mid, RBRACKET);
      }
    } else if t[0] == QUOTE {
      QuoteBest(t, v.s, rest);
    } else if t[0] == MINUS || Digit(t[0]) {
      NumberBest(t, v.n, rest);
    } else {
      WordBest(t, v, rest);
    }
  }

  lemma {:induction false} ItemBest(t: Text, v: Json, rest: Text)
    requires WellFormed(t) && DecodeItem(t) == Got(v, rest)
    ensures Best(ItemText(v), t, rest) && WellFormed(rest)
    decreases |t|, 1
  {
    if t != [] && (t[0] == COMMA || t[0] == RBRACKET) {
      assert t == [] + rest;
    } else {
      ValueBest(t, v, rest);
    }
  }

  lemma JoinedBest(text: Text, t: Text, mid: Text, more: Text, rest: Text)
    requires Best(text, t, mid) && mid != [] && mid[0] == COMMA && Best(more, mid[1..], rest)
    ensures Best(text + [COMMA] + more, t, rest)
  {
    BestHead(COMMA, mid, more, rest);
    BestThen(text, t, [COMMA] + more, mid, rest);
    Assoc(text, [COMMA], more);
  }

  lemma JoinCons(text: Text, texts: seq<Text>)
    ensures Join([text] + texts) == if texts == [] then text else text + [COMMA] + Join(texts)
  {
    assert ([text] + texts)[1..] == texts;
  }

  lemma ItemTextAt(vs: seq<Json>, k: nat)
    requires k < |vs|
    ensures PrintItems(vs)[k] == ItemText(vs[k])
  {
  }

  lemma PrintItemsCons(v: Json, vs: seq<Json>)
    ensures PrintItems([v] + vs) == [ItemText(v)] + PrintItems(vs)
  {
    var all, ts, us := [v] + vs, PrintItems([v] + vs), [ItemText(v)] + PrintItems(vs);
    forall k | 0 <= k < |all| ensures ts[k] == us[k] {
      ItemTextAt(all, k);
      if k > 0 {
        ItemTextAt(vs, k - 1);
      }
    }
  }

  lemma {:induction false} ItemsBest(t: Text, vs: seq<Json>, rest: Text)
    requires WellFormed(t) && DecodeItems(t) == Got(vs, rest)
    ensures vs != [] && Best(Join(PrintItems(vs)), t, rest) && WellFormed(rest)
    decreases |t|, 2
  {
    var v, mid := DecodeItem(t).val, DecodeItem(t).rest;
    ItemBest(t, v, mid);
    if mid != [] && mid[0] == COMMA {
      TailWellFormed(mid);
      var more := DecodeItems(mid[1..]).val;
      ItemsBest(mid[1..], more, rest);
      PrintItemsCons(v, more);
      JoinCons(ItemText(v), PrintItems(more));
      JoinedBest(ItemText(v), t, mid, Join(PrintItems(more)), rest);
    } else {
      PrintItemsCons(v, []);
      JoinCons(ItemText(v), PrintItems([]));
      assert [v] + [] == [v];
    }
  }

  lemma MemberTextIs(key: Text, text: Text)
    ensures MemberText(Member(key, text)) == Quote(key) + ([COLON] + text)
  {
    Assoc(Quote(key), [COLON], text);
  }

  lemma {:induction false} MemberBest(t: Text, m: Member<Json>, rest: Text)
    requires WellFormed(t) && DecodeMember(t) == Got(m, rest)
    ensures Best(MemberText(Member(m.key, Print(m.value))), t, rest) && WellFormed(rest)
    decreases |t|, 0
  {
    var mid := DecodeString(t[1..]).rest;
    QuoteBest(t, m.key, mid);
    TailWellFormed(mid);
    ValueBest(mid[1..], m.value, rest);
    BestHead(COLON, mid, Print(m.value), rest);
    BestThen(Quote(m.key), t, [COLON] + Print(m.value), mid, rest);
    MemberTextIs(m.key, Print(m.value));
  }

  lemma MemberTextAt(ms: seq<Member<Json>>, k: nat)
    requires k < |ms|
    ensures |MemberTexts(PrintMembers(ms))| == |ms|
    ensures MemberTexts(PrintMembers(ms))[k] == MemberText(Member(ms[k].key, Print(ms[k].value)))
  {
  }

  lemma MemberTextsCons(m: Member<Json>, ms: seq<Member<Json>>)
    ensures MemberTexts(PrintMembers([m] + ms))
      == [MemberText(Member(m.key, Print(m.value)))] + MemberTexts(PrintMembers(ms))
  {
    var all, ts := [m] + ms, MemberTexts(PrintMembers([m] + ms));
    var us := [MemberText(Member(m.key, Print(m.value)))] + MemberTexts(PrintMembers(ms));
    forall k | 0 <= k < |all| ensures ts[k] == us[k] {
      MemberTextAt(all, k);
      if k > 0 {
        MemberTextAt(ms, k - 1);
      }
    }
  }

  lemma {:induction false} MembersBest(t: Text, ms: seq<Member<Json>>, rest: Text)
    requires WellFormed(t) && DecodeMembers(t) == Got(ms, rest)
    ensures ms != [] && Best(Join(MemberTexts(PrintMembers(ms))), t, rest) && WellFormed(rest)
    decreases |t|, 1
  {
    var m, mid := DecodeMember(t).val, DecodeMember(t).rest;
    var text := MemberText(Member(m.key, Print(m.value)));
    MemberBest(t, m, mid);
    if mid != [] && mid[0] == COMMA {
      TailWellFormed(mid);
      var more := DecodeMembers(mid[1..]).val;
      MembersBest(mid[1..], more, rest);
      MemberTextsCons(m, more);
      JoinCons(text, MemberTexts(PrintMembers(more)));
      JoinedBest(text, t, mid, Join(MemberTexts(PrintMembers(more))), rest);
    } else {
      MemberTextsCons(m, []);
      JoinCons(text, MemberTexts(PrintMembers([])));
      assert [m] + [] == [m];
    }
  }

  /** Of all well-formed texts that read as a value the printed one is the shortest, and no other is as short. */
  lemma PrintShortest(v: Json, t: Text)
    requires WellFormed(t) && Decode(t) == Got(v, [])
    ensures |Print(v)| < |t| || t == Print(v)
  {
    ValueBest(t, v, []);
    assert Print(v) + [] == Print(v);
  }

  /** The same of one unit of a string. */
  lemma EscapeShortest(u: Unit, t: Text)
    requires WellFormed(t) && DecodeUnit(t) == Got(u, [])
    ensures |Escape(u)| < |t| || t == Escape(u)
  {
    assert |t[1..]| == |t| - 1;
    UnitBest(t, u, []);
    assert Escape(u) + [] == Escape(u);
  }
}
