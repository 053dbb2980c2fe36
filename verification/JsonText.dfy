/** Compact JSON text: what `JSON.stringify` and the two canonicalizers write, and a decoder for it. */
module JsonText {
  import opened Unicode
  import opened Values

  const QUOTE: Unit := 0x22
  const COMMA: Unit := 0x2C
  const MINUS: Unit := 0x2D
  const COLON: Unit := 0x3A
  const LBRACKET: Unit := 0x5B
  const BACKSLASH: Unit := 0x5C
  const RBRACKET: Unit := 0x5D
  const LBRACE: Unit := 0x7B
  const RBRACE: Unit := 0x7D

  const NULL: Text := U("null")
  const TRUE: Text := U("true")
  const FALSE: Text := U("false")
  const UNDEFINED: Text := U("undefined")

  // ---------------------------------------------------------------- printing

  function HexDigit(n: int): Unit
    requires 0 <= n < 16
  {
    if n < 10 then 0x30 + n else 0x61 + n - 10
  }

  function Hex4(u: Unit): Text {
    [HexDigit(u / 0x1000), HexDigit(u / 0x100 % 0x10), HexDigit(u / 0x10 % 0x10), HexDigit(u % 0x10)]
  }

  /** What follows the backslash of an escaped unit (section 7 of RFC 8259). */
  function EscapeTail(u: Unit): Text {
    if u == QUOTE || u == BACKSLASH then [u]
    else if u == 0x08 then [0x62]
    else if u == 0x09 then [0x74]
    else if u == 0x0A then [0x6E]
    else if u == 0x0C then [0x66]
    else if u == 0x0D then [0x72]
    else [0x75] + Hex4(u)
  }

  /** Quotes, backslashes, control characters and lone surrogates are escaped; nothing else is. */
  function Escape(u: Unit): Text {
    if u == QUOTE || u == BACKSLASH || u < 0x20 || High(u) || Low(u) then [BACKSLASH] + EscapeTail(u) else [u]
  }

  /** The last `n` units of a text, escaped; a surrogate pair stands as it is. */
  function QuoteLast(s: Text, n: nat): Text
    requires n <= |s|
    decreases n
  {
    var i := |s| - n;
    if n == 0 then []
    else if PairAt(s, i) then s[i..i + 2] + QuoteLast(s, n - 2)
    else Escape(s[i]) + QuoteLast(s, n - 1)
  }

  function QuoteBody(s: Text): Text {
    QuoteLast(s, |s|)
  }

  function Quote(s: Text): Text {
    [QUOTE] + QuoteBody(s) + [QUOTE]
  }

  function PrintNat(n: nat): Text {
    if n < 10 then [0x30 + n] else PrintNat(n / 10) + [0x30 + n % 10]
  }

  function PrintInt(n: int): Text {
    if n < 0 then [MINUS] + PrintNat(-n) else PrintNat(n)
  }

  function Join(ts: seq<Text>): Text {
    if ts == [] then []
    else if |ts| == 1 then ts[0]
    else ts[0] + [COMMA] + Join(ts[1..])
  }

  function MemberText(m: Member<Text>): Text {
    Quote(m.key) + [COLON] + m.value
  }

  function MemberTexts(ms: seq<Member<Text>>): seq<Text> {
    seq(|ms|, i requires 0 <= i < |ms| => MemberText(ms[i]))
  }

  /** The text of a value with its members in the order they stand. An `undefined` member value is
      written as that word, an `undefined` array element as nothing. */
  function Print(v: Json): Text
    decreases v, 1
  {
    match v
    case Undef => UNDEFINED
    case Null => NULL
    case Bool(b) => if b then TRUE else FALSE
    case Num(n) => PrintInt(n)
    case Str(s) => Quote(s)
    case Arr(items) => [LBRACKET] + Join(PrintItems(items)) + [RBRACKET]
    case Obj(ms) => [LBRACE] + Join(MemberTexts(PrintMembers(ms))) + [RBRACE]
  }

  function PrintItems(items: seq<Json>): (ts: seq<Text>)
    ensures |ts| == |items|
    decreases items, 0
  {
    seq(|items|, i requires 0 <= i < |items| => if items[i].Undef? then [] else Print(items[i]))
  }

  function PrintMembers(ms: seq<Member<Json>>): (ts: seq<Member<Text>>)
    ensures |ts| == |ms|
    decreases ms, 0
  {
    seq(|ms|, i requires 0 <= i < |ms| => Member(ms[i].key, Print(ms[i].value)))
  }

  // ---------------------------------------------------------------- decoding

  datatype Parse<+T> = Fail | Got(val: T, rest: Text)

  predicate Digit(u: Unit) { 0x30 <= u < 0x3A }

  predicate IsHex(u: Unit) { Digit(u) || 0x61 <= u < 0x67 }

  function HexValue(u: Unit): int
    requires IsHex(u)
  {
    if u < 0x3A then u - 0x30 else u - 0x61 + 10
  }

  function DecodeEscape(t: Text): (r: Parse<Unit>)
    ensures r.Got? ==> |r.rest| < |t|
  {
    if t == [] then Fail
    else if t[0] == QUOTE || t[0] == BACKSLASH then Got(t[0], t[1..])
    else if t[0] == 0x62 then Got(0x08, t[1..])
    else if t[0] == 0x74 then Got(0x09, t[1..])
    else if t[0] == 0x6E then Got(0x0A, t[1..])
    else if t[0] == 0x66 then Got(0x0C, t[1..])
    else if t[0] == 0x72 then Got(0x0D, t[1..])
    else if t[0] == 0x75 && |t| >= 5 && IsHex(t[1]) && IsHex(t[2]) && IsHex(t[3]) && IsHex(t[4]) then
      Got(HexValue(t[1]) * 0x1000 + HexValue(t[2]) * 0x100 + HexValue(t[3]) * 0x10 + HexValue(t[4]), t[5..])
    else Fail
  }

  function DecodeUnit(t: Text): (r: Parse<Unit>)
    ensures r.Got? ==> |r.rest| < |t|
  {
    if t == [] || t[0] < 0x20 || t[0] == QUOTE then Fail
    else if t[0] == BACKSLASH then DecodeEscape(t[1..])
    else Got(t[0], t[1..])
  }

  /** Reads a string after its opening quote. */
  function DecodeString(t: Text): (r: Parse<Text>)
    ensures r.Got? ==> |r.rest| < |t|
    decreases |t|
  {
    if t != [] && t[0] == QUOTE then Got([], t[1..])
    else
      match DecodeUnit(t)
      case Fail => Fail
      case Got(u, rest) =>
        match DecodeString(rest)
        case Fail => Fail
        case Got(s, rest') => Got([u] + s, rest')
  }

  /** Length of the run of digits a text starts with. */
  function Digits(t: Text): (n: nat)
    ensures n <= |t|
    ensures forall i | 0 <= i < n :: Digit(t[i])
  {
    if t == [] || !Digit(t[0]) then 0 else 1 + Digits(t[1..])
  }

  function NatValue(t: Text): int {
    if t == [] then 0 else NatValue(t[..|t| - 1]) * 10 + (t[|t| - 1] as int - 0x30)
  }

  function DecodeNumber(t: Text): (r: Parse<Json>)
    ensures r.Got? ==> |r.rest| < |t|
  {
    if t != [] && t[0] == MINUS then
      var n := Digits(t[1..]);
      if n == 0 then Fail else Got(Num(-NatValue(t[1..][..n])), t[1..][n..])
    else
      var n := Digits(t);
      if n == 0 then Fail else Got(Num(NatValue(t[..n])), t[n..])
  }

  function DecodeWord(t: Text): (r: Parse<Json>)
    ensures r.Got? ==> |r.rest| < |t|
  {
    if NULL <= t then Got(Null, t[|NULL|..])
    else if TRUE <= t then Got(Bool(true), t[|TRUE|..])
    else if FALSE <= t then Got(Bool(false), t[|FALSE|..])
    else if UNDEFINED <= t then Got(Undef, t[|UNDEFINED|..])
    else Fail
  }

  function Decode(t: Text): (r: Parse<Json>)
    ensures r.Got? ==> |r.rest| < |t|
    decreases |t|, 0
  {
    if t == [] then Fail
    else if t[0] == LBRACE then
      if |t| > 1 && t[1] == RBRACE then Got(Obj([]), t[2..])
      else
        match DecodeMembers(t[1..])
        case Got(ms, rest) => if rest != [] && rest[0] == RBRACE then Got(Obj(ms), rest[1..]) else Fail
        case Fail => Fail
    else if t[0] == LBRACKET then
      if |t| > 1 && t[1] == RBRACKET then Got(Arr([]), t[2..])
      else
        match DecodeItems(t[1..])
        case Got(vs, rest) => if rest != [] && rest[0] == RBRACKET then Got(Arr(vs), rest[1..]) else Fail
        case Fail => Fail
    else if t[0] == QUOTE then
      match DecodeString(t[1..])
      case Got(s, rest) => Got(Str(s), rest)
      case Fail => Fail
    else if t[0] == MINUS || Digit(t[0]) then DecodeNumber(t)
    else DecodeWord(t)
  }

  /** Reads array elements; one that is not written at all is `undefined`. */
  function DecodeItem(t: Text): (r: Parse<Json>)
    ensures r.Got? ==> |r.rest| <= |t|
    decreases |t|, 1
  {
    if t != [] && (t[0] == COMMA || t[0] == RBRACKET) then Got(Undef, t) else Decode(t)
  }

  function DecodeItems(t: Text): (r: Parse<seq<Json>>)
    ensures r.Got? ==> |r.rest| <= |t|
    decreases |t|, 2
  {
    match DecodeItem(t)
    case Fail => Fail
    case Got(v, rest) =>
      if rest != [] && rest[0] == COMMA then
        match DecodeItems(rest[1..])
        case Fail => Fail
        case Got(vs, rest') => Got([v] + vs, rest')
      else Got([v], rest)
  }

  function DecodeMember(t: Text): (r: Parse<Member<Json>>)
    ensures r.Got? ==> |r.rest| < |t|
    decreases |t|, 0
  {
    if t == [] || t[0] != QUOTE then Fail
    else
      match DecodeString(t[1..])
      case Fail => Fail
      case Got(key, rest) =>
        if rest == [] || rest[0] != COLON then Fail
        else
          match Decode(rest[1..])
          case Fail => Fail
          case Got(v, rest') => Got(Member(key, v), rest')
  }

  function DecodeMembers(t: Text): (r: Parse<seq<Member<Json>>>)
    ensures r.Got? ==> |r.rest| < |t|
    decreases |t|, 1
  {
    match DecodeMember(t)
    case Fail => Fail
    case Got(m, rest) =>
      if rest != [] && rest[0] == COMMA then
        match DecodeMembers(rest[1..])
        case Fail => Fail
        case Got(ms, rest') => Got([m] + ms, rest')
      else Got([m], rest)
  }

  // ---------------------------------------------------------------- round trip

  lemma HexRoundTrip(n: int)
    requires 0 <= n < 16
    ensures IsHex(HexDigit(n)) && HexValue(HexDigit(n)) == n
  {
  }

  lemma DecodeHex(h: Text, rest: Text)
    requires |h| == 4 && IsHex(h[0]) && IsHex(h[1]) && IsHex(h[2]) && IsHex(h[3])
    ensures DecodeEscape([0x75] + h + rest)
         == Got(HexValue(h[0]) * 0x1000 + HexValue(h[1]) * 0x100 + HexValue(h[2]) * 0x10 + HexValue(h[3]), rest)
  {
    assert ([0x75] + h + rest)[5..] == rest;
  }

  lemma HexDigitsSum(u: Unit)
    ensures u / 0x1000 * 0x1000 + u / 0x100 % 0x10 * 0x100 + u / 0x10 % 0x10 * 0x10 + u % 0x10 == u
  {
    assert u / 0x10 == u / 0x100 * 0x10 + u / 0x10 % 0x10;
    assert u / 0x100 == u / 0x1000 * 0x10 + u / 0x100 % 0x10;
  }

  lemma Hex4RoundTrip(u: Unit, rest: Text)
    ensures DecodeEscape([0x75] + Hex4(u) + rest) == Got(u, rest)
  {
    HexRoundTrip(u / 0x1000);
    HexRoundTrip(u / 0x100 % 0x10);
    HexRoundTrip(u / 0x10 % 0x10);
    HexRoundTrip(u % 0x10);
    HexDigitsSum(u);
    DecodeHex(Hex4(u), rest);
  }

  lemma EscapeTailRoundTrip(u: Unit, rest: Text)
    ensures DecodeEscape(EscapeTail(u) + rest) == Got(u, rest)
  {
    if |EscapeTail(u)| == 1 {
      assert (EscapeTail(u) + rest)[1..] == rest;
    } else {
      Hex4RoundTrip(u, rest);
    }
  }

  lemma DecodeEscaped(escape: Text, tail: Text, rest: Text)
    requires escape == [BACKSLASH] + tail
    ensures DecodeUnit(escape + rest) == DecodeEscape(tail + rest)
  {
    assert (escape + rest)[1..] == tail + rest;
  }

  lemma EscapeRoundTrip(u: Unit, rest: Text)
    ensures DecodeUnit(Escape(u) + rest) == Got(u, rest)
    ensures (Escape(u) + rest)[0] != QUOTE
  {
    if Escape(u) == [u] {
      assert ([u] + rest)[1..] == rest;
    } else {
      EscapeTailRoundTrip(u, rest);
      DecodeEscaped(Escape(u), EscapeTail(u), rest);
    }
  }

  lemma DecodeStringStep(t: Text, u: Unit, rest: Text, s: Text, end: Text)
    requires t != [] && t[0] != QUOTE && DecodeUnit(t) == Got(u, rest) && DecodeString(rest) == Got(s, end)
    ensures DecodeString(t) == Got([u] + s, end)
  {
  }

  /** Units of a surrogate pair stand as they are. */
  lemma DecodePlain(u: Unit, rest: Text, s: Text, end: Text)
    requires High(u) || Low(u)
    requires DecodeString(rest) == Got(s, end)
    ensures DecodeString([u] + rest) == Got([u] + s, end)
  {
    assert ([u] + rest)[1..] == rest;
    DecodeStringStep([u] + rest, u, rest, s, end);
  }

  lemma PairThen(p: Text, t: Text)
    requires |p| == 2
    ensures p + t == [p[0]] + ([p[1]] + t)
  {
  }

  lemma DecodePair(p: Text, rest: Text, s: Text, end: Text)
    requires |p| == 2 && PairAt(p, 0)
    requires DecodeString(rest) == Got(s, end)
    ensures DecodeString(p + rest) == Got(p + s, end)
  {
    DecodePlain(p[1], rest, s, end);
    DecodePlain(p[0], [p[1]] + rest, [p[1]] + s, end);
    PairThen(p, rest);
    PairThen(p, s);
  }

  lemma DecodeOne(u: Unit, rest: Text, s: Text, end: Text)
    requires DecodeString(rest) == Got(s, end)
    ensures DecodeString(Escape(u) + rest) == Got([u] + s, end)
  {
    EscapeRoundTrip(u, rest);
    DecodeStringStep(Escape(u) + rest, u, rest, s, end);
  }

  lemma DecodeOneMore(u: Unit, tail: Text, end: Text, s: Text, rest: Text)
    requires DecodeString(tail + end) == Got(s, rest)
    ensures DecodeString(Escape(u) + tail + end) == Got([u] + s, rest)
  {
    Assoc(Escape(u), tail, end);
    DecodeOne(u, tail + end, s, rest);
  }

  lemma DecodePairMore(p: Text, tail: Text, end: Text, s: Text, rest: Text)
    requires |p| == 2 && PairAt(p, 0)
    requires DecodeString(tail + end) == Got(s, rest)
    ensures DecodeString(p + tail + end) == Got(p + s, rest)
  {
    Assoc(p, tail, end);
    DecodePair(p, tail + end, s, rest);
  }

  lemma QuotedNone(end: Text, rest: Text)
    requires end == [QUOTE] + rest
    ensures DecodeString(end) == Got([], rest)
  {
    assert end[1..] == rest;
  }

  function Last(s: Text, n: nat): Text
    requires n <= |s|
  {
    s[|s| - n..]
  }

  lemma LastCons(s: Text, n: nat)
    requires 1 <= n <= |s|
    ensures Last(s, n) == [s[|s| - n]] + Last(s, n - 1)
  {
  }

  lemma LastPair(s: Text, n: nat)
    requires 2 <= n <= |s|
    ensures Last(s, n) == s[|s| - n..|s| - n + 2] + Last(s, n - 2)
  {
  }

  lemma QuotedPair(s: Text, n: nat, end: Text, rest: Text)
    requires 2 <= n <= |s| && PairAt(s, |s| - n)
    requires DecodeString(QuoteLast(s, n - 2) + end) == Got(Last(s, n - 2), rest)
    ensures DecodeString(QuoteLast(s, n) + end) == Got(Last(s, n), rest)
  {
    var i, tail := |s| - n, QuoteLast(s, n - 2);
    var p := s[i..i + 2];
    assert QuoteLast(s, n) == p + tail;
    DecodePairMore(p, tail, end, Last(s, n - 2), rest);
    LastPair(s, n);
  }

  lemma QuotedOne(s: Text, n: nat, end: Text, rest: Text)
    requires 1 <= n <= |s| && !PairAt(s, |s| - n)
    requires DecodeString(QuoteLast(s, n - 1) + end) == Got(Last(s, n - 1), rest)
    ensures DecodeString(QuoteLast(s, n) + end) == Got(Last(s, n), rest)
  {
    var u, tail := s[|s| - n], QuoteLast(s, n - 1);
    assert QuoteLast(s, n) == Escape(u) + tail;
    DecodeOneMore(u, tail, end, Last(s, n - 1), rest);
    LastCons(s, n);
  }

  lemma {:induction false} QuotedRoundTrip(s: Text, n: nat, end: Text, rest: Text)
    requires n <= |s| && DecodeString(end) == Got([], rest)
    ensures DecodeString(QuoteLast(s, n) + end) == Got(Last(s, n), rest)
    decreases n
  {
    if n == 0 {
      assert QuoteLast(s, n) + end == end && Last(s, n) == [];
    } else if PairAt(s, |s| - n) {
      QuotedRoundTrip(s, n - 2, end, rest);
      QuotedPair(s, n, end, rest);
    } else {
      QuotedRoundTrip(s, n - 1, end, rest);
      QuotedOne(s, n, end, rest);
    }
  }

  lemma StringRoundTrip(s: Text, end: Text, rest: Text)
    requires end == [QUOTE] + rest
    ensures DecodeString(QuoteBody(s) + end) == Got(s, rest)
  {
    QuotedNone(end, rest);
    QuotedRoundTrip(s, |s|, end, rest);
    assert Last(s, |s|) == s;
  }

  lemma {:induction false} PrintNatDigits(n: nat)
    ensures PrintNat(n) != [] && forall i | 0 <= i < |PrintNat(n)| :: Digit(PrintNat(n)[i])
    ensures NatValue(PrintNat(n)) == n
  {
    if n >= 10 {
      PrintNatDigits(n / 10);
      assert PrintNat(n)[..|PrintNat(n)| - 1] == PrintNat(n / 10);
    }
  }

  /** A number's text ends where the digits end. */
  predicate Stops(rest: Text) { rest == [] || !Digit(rest[0]) }

  /** The text of the value ends where `rest` starts: only a number's text could run on. */
  predicate EndsBefore(v: Json, rest: Text) { v.Num? ==> Stops(rest) }

  lemma {:induction false} DigitsEnd(d: Text, rest: Text)
    requires forall i | 0 <= i < |d| :: Digit(d[i])
    requires Stops(rest)
    ensures Digits(d + rest) == |d|
  {
    if d == [] {
      assert d + rest == rest;
    } else {
      DigitsEnd(d[1..], rest);
      assert (d + rest)[1..] == d[1..] + rest;
    }
  }

  lemma NatRoundTrip(n: nat, rest: Text)
    requires Stops(rest)
    ensures var t := PrintNat(n) + rest;
      && PrintNat(n) != [] && Digit(PrintNat(n)[0])
      && Digits(t) == |PrintNat(n)| && NatValue(t[..Digits(t)]) == n && t[Digits(t)..] == rest
  {
    var d := PrintNat(n);
    PrintNatDigits(n);
    DigitsEnd(d, rest);
    assert (d + rest)[..|d|] == d && (d + rest)[|d|..] == rest;
  }

  lemma DecodeNatural(t: Text)
    requires t != [] && Digit(t[0])
    ensures DecodeNumber(t) == Got(Num(NatValue(t[..Digits(t)])), t[Digits(t)..])
  {
  }

  lemma DecodeNegative(t: Text, minus: Text)
    requires t != [] && Digit(t[0]) && minus == [MINUS] + t
    ensures DecodeNumber(minus) == Got(Num(-NatValue(t[..Digits(t)])), t[Digits(t)..])
  {
    assert minus[1..] == t;
  }

  lemma NumberRoundTrip(n: int, rest: Text)
    requires Stops(rest)
    ensures DecodeNumber(PrintInt(n) + rest) == Got(Num(n), rest)
    ensures PrintInt(n)[0] == MINUS || Digit(PrintInt(n)[0])
  {
    var m: nat := if n < 0 then -n else n;
    NatRoundTrip(m, rest);
    if n < 0 {
      Assoc([MINUS], PrintNat(m), rest);
      DecodeNegative(PrintNat(m) + rest, PrintInt(n) + rest);
    } else {
      DecodeNatural(PrintNat(m) + rest);
    }
  }

  lemma WordRoundTrip(v: Json, rest: Text)
    requires v.Undef? || v.Null? || v.Bool?
    ensures DecodeWord(Print(v) + rest) == Got(v, rest)
    ensures 0x66 <= Print(v)[0] <= 0x75
  {
    var w := Print(v);
    assert NULL[0] == 0x6E && TRUE[0] == 0x74 && FALSE[0] == 0x66 && UNDEFINED[0] == 0x75;
    assert (w + rest)[0] == w[0] && (w + rest)[..|w|] == w && (w + rest)[|w|..] == rest;
  }

  lemma DecodeNum(n: int, rest: Text)
    requires Stops(rest)
    ensures Decode(Print(Num(n)) + rest) == Got(Num(n), rest)
  {
    NumberRoundTrip(n, rest);
    assert (PrintInt(n) + rest)[0] == PrintInt(n)[0];
  }

  lemma DecodeAtom(v: Json, rest: Text)
    requires v.Undef? || v.Null? || v.Bool?
    ensures Decode(Print(v) + rest) == Got(v, rest)
  {
    WordRoundTrip(v, rest);
    assert (Print(v) + rest)[0] == Print(v)[0];
  }

  /** A value's text never starts with a closing bracket or a comma, so an empty array is told from a full one, and
      an element that is written from one that is not. */
  lemma PrintHead(v: Json)
    ensures Print(v) != [] && Print(v)[0] != RBRACKET && Print(v)[0] != COMMA
  {
    if v.Num? {
      PrintNatDigits(if v.n < 0 then -v.n else v.n);
    }
  }

  lemma DecodeQuoted(s: Text, rest: Text)
    ensures Decode(Quote(s) + rest) == Got(Str(s), rest)
  {
    var tail := QuoteBody(s) + ([QUOTE] + rest);
    StringRoundTrip(s, [QUOTE] + rest, rest);
    assert Quote(s) + rest == [QUOTE] + tail;
    assert ([QUOTE] + tail)[1..] == tail;
  }

  lemma DecodeArray(body: Text, items: seq<Json>, rest: Text)
    requires body != [] && body[0] != RBRACKET
    requires DecodeItems(body + ([RBRACKET] + rest)) == Got(items, [RBRACKET] + rest)
    ensures Decode([LBRACKET] + body + [RBRACKET] + rest) == Got(Arr(items), rest)
  {
    var t := [LBRACKET] + body + [RBRACKET] + rest;
    assert t[1..] == body + ([RBRACKET] + rest);
    assert t[1] == body[0];
    assert ([RBRACKET] + rest)[1..] == rest;
  }

  lemma DecodeObject(body: Text, ms: seq<Member<Json>>, rest: Text)
    requires body != [] && body[0] != RBRACE
    requires DecodeMembers(body + ([RBRACE] + rest)) == Got(ms, [RBRACE] + rest)
    ensures Decode([LBRACE] + body + [RBRACE] + rest) == Got(Obj(ms), rest)
  {
    var t := [LBRACE] + body + [RBRACE] + rest;
    assert t[1..] == body + ([RBRACE] + rest);
    assert t[1] == body[0];
    assert ([RBRACE] + rest)[1..] == rest;
  }

  lemma DecodeEmpty(rest: Text)
    ensures Decode([LBRACKET] + [] + [RBRACKET] + rest) == Got(Arr([]), rest)
    ensures Decode([LBRACE] + [] + [RBRACE] + rest) == Got(Obj([]), rest)
  {
    assert ([LBRACKET] + [] + [RBRACKET] + rest)[2..] == rest;
    assert ([LBRACE] + [] + [RBRACE] + rest)[2..] == rest;
  }

  lemma DecodeItemsStep(text: Text, v: Json, tail: Text, vs: seq<Json>, end: Text)
    requires DecodeItem(text + ([COMMA] + tail)) == Got(v, [COMMA] + tail)
    requires DecodeItems(tail) == Got(vs, end)
    ensures DecodeItems(text + ([COMMA] + tail)) == Got([v] + vs, end)
  {
    assert ([COMMA] + tail)[1..] == tail;
  }

  lemma DecodeMembersStep(text: Text, m: Member<Json>, tail: Text, ms: seq<Member<Json>>, end: Text)
    requires DecodeMember(text + ([COMMA] + tail)) == Got(m, [COMMA] + tail)
    requires DecodeMembers(tail) == Got(ms, end)
    ensures DecodeMembers(text + ([COMMA] + tail)) == Got([m] + ms, end)
  {
    assert ([COMMA] + tail)[1..] == tail;
  }

  lemma DecodeMemberParts(t: Text, tail: Text, key: Text, after: Text, text: Text, v: Json, rest: Text)
    requires t == [QUOTE] + tail && DecodeString(tail) == Got(key, after)
    requires after == [COLON] + text && Decode(text) == Got(v, rest)
    ensures DecodeMember(t) == Got(Member(key, v), rest)
  {
    assert t[1..] == tail && after[1..] == text;
  }

  lemma MemberTextParts(key: Text, text: Text, rest: Text)
    ensures MemberText(Member(key, text)) + rest
         == [QUOTE] + (QuoteBody(key) + ([QUOTE] + ([COLON] + (text + rest))))
  {
  }

  lemma DecodeMemberOf(key: Text, text: Text, v: Json, rest: Text)
    requires Decode(text + rest) == Got(v, rest)
    ensures DecodeMember(MemberText(Member(key, text)) + rest) == Got(Member(key, v), rest)
  {
    var after := [COLON] + (text + rest);
    var end := [QUOTE] + after;
    StringRoundTrip(key, end, after);
    MemberTextParts(key, text, rest);
    DecodeMemberParts(MemberText(Member(key, text)) + rest, QuoteBody(key) + end, key, after, text + rest, v, rest);
  }

  lemma JoinStep(ts: seq<Text>, rest: Text)
    requires |ts| > 1
    ensures Join(ts) + rest == ts[0] + ([COMMA] + (Join(ts[1..]) + rest))
  {
  }

  /** The decoder reads back any value from its text, and stops where the text stops. An array whose only element is
      `undefined` is written as an empty one, and read back as that. */
  lemma {:induction false} RoundTrip(v: Json, rest: Text)
    requires EndsBefore(v, rest)
    ensures Decode(Print(v) + rest) == Got(Squeezed(v), rest)
    decreases v, 1
  {
    match v
    case Num(n) => DecodeNum(n, rest);
    case Str(s) => DecodeQuoted(s, rest);
    case Arr(items) => ArrayRoundTrip(items, rest);
    case Obj(ms) => ObjectRoundTrip(ms, rest);
    case _ => DecodeAtom(v, rest);
  }

  lemma {:induction false} ArrayRoundTrip(items: seq<Json>, rest: Text)
    ensures Decode(Print(Arr(items)) + rest) == Got(Squeezed(Arr(items)), rest)
    decreases items, 2
  {
    if items == [] || items == [Undef] {
      DecodeEmpty(rest);
      assert items == [Undef] ==> PrintItems(items) == [[]];
      assert items == [] ==> SqueezedItems(items) == [];
    } else {
      ItemsRoundTrip(items, [RBRACKET] + rest);
      ItemsHead(items);
      DecodeArray(Join(PrintItems(items)), SqueezedItems(items), rest);
    }
  }

  lemma ItemsHead(items: seq<Json>)
    requires items != [] && items != [Undef]
    ensures var body := Join(PrintItems(items)); body != [] && body[0] != RBRACKET
  {
    if items[0].Undef? {
      assert |items| > 1;
    } else {
      PrintHead(items[0]);
    }
  }

  lemma {:induction false} ObjectRoundTrip(ms: seq<Member<Json>>, rest: Text)
    ensures Decode(Print(Obj(ms)) + rest) == Got(Squeezed(Obj(ms)), rest)
    decreases ms, 2
  {
    if ms == [] {
      DecodeEmpty(rest);
      assert SqueezedMembers(ms) == [];
    } else {
      MembersRoundTrip(ms, [RBRACE] + rest);
      DecodeObject(Join(MemberTexts(PrintMembers(ms))), SqueezedMembers(ms), rest);
    }
  }

  lemma {:induction false} ItemRoundTrip(v: Json, rest: Text)
    requires rest != [] && (rest[0] == COMMA || rest[0] == RBRACKET)
    ensures DecodeItem((if v.Undef? then [] else Print(v)) + rest) == Got(Squeezed(v), rest)
    decreases v, 2
  {
    if v.Undef? {
      assert [] + rest == rest;
    } else {
      RoundTrip(v, rest);
      PrintHead(v);
      assert (Print(v) + rest)[0] == Print(v)[0];
    }
  }

  lemma {:induction false} ItemsRoundTrip(items: seq<Json>, rest: Text)
    requires items != [] && rest != [] && rest[0] == RBRACKET
    ensures DecodeItems(Join(PrintItems(items)) + rest) == Got(SqueezedItems(items), rest)
    decreases items, 0
  {
    var ts := PrintItems(items);
    if |items| == 1 {
      ItemRoundTrip(items[0], rest);
      DecodeLastItem(ts[0] + rest, Squeezed(items[0]), rest);
      assert SqueezedItems(items) == [Squeezed(items[0])];
      assert ts == [ts[0]];
    } else {
      var tail := Join(PrintItems(items[1..])) + rest;
      ItemsRoundTrip(items[1..], rest);
      ItemRoundTrip(items[0], [COMMA] + tail);
      DecodeItemsStep(ts[0], Squeezed(items[0]), tail, SqueezedItems(items[1..]), rest);
      PrintItemsTail(items);
      JoinStep(ts, rest);
    }
  }

  lemma DecodeLastItem(t: Text, v: Json, rest: Text)
    requires DecodeItem(t) == Got(v, rest) && rest != [] && rest[0] != COMMA
    ensures DecodeItems(t) == Got([v], rest)
  {
  }

  lemma DecodeLastMember(t: Text, m: Member<Json>, rest: Text)
    requires DecodeMember(t) == Got(m, rest) && rest != [] && rest[0] != COMMA
    ensures DecodeMembers(t) == Got([m], rest)
  {
  }

  lemma PrintItemsTail(items: seq<Json>)
    requires items != []
    ensures PrintItems(items)[1..] == PrintItems(items[1..])
  {
  }

  lemma {:induction false} MembersRoundTrip(ms: seq<Member<Json>>, rest: Text)
    requires ms != []
    requires rest != [] && !Digit(rest[0]) && rest[0] != COMMA
    ensures DecodeMembers(Join(MemberTexts(PrintMembers(ms))) + rest) == Got(SqueezedMembers(ms), rest)
    decreases ms, 1
  {
    var m, ts := ms[0], MemberTexts(PrintMembers(ms));
    if |ms| == 1 {
      MemberRoundTrip(m, rest);
      DecodeLastMember(ts[0] + rest, Member(m.key, Squeezed(m.value)), rest);
      assert SqueezedMembers(ms) == [Member(m.key, Squeezed(m.value))];
      assert ts == [ts[0]];
    } else {
      var tail := Join(MemberTexts(PrintMembers(ms[1..]))) + rest;
      MembersRoundTrip(ms[1..], rest);
      MemberRoundTrip(m, [COMMA] + tail);
      DecodeMembersStep(ts[0], Member(m.key, Squeezed(m.value)), tail, SqueezedMembers(ms[1..]), rest);
      MemberTextsTail(ms);
      JoinStep(ts, rest);
    }
  }

  lemma {:induction false} MemberRoundTrip(m: Member<Json>, rest: Text)
    requires EndsBefore(m.value, rest)
    ensures DecodeMember(MemberText(Member(m.key, Print(m.value))) + rest) == Got(Member(m.key, Squeezed(m.value)), rest)
    decreases m, 0
  {
    RoundTrip(m.value, rest);
    DecodeMemberOf(m.key, Print(m.value), Squeezed(m.value), rest);
  }

  lemma MemberTextsTail(ms: seq<Member<Json>>)
    requires ms != []
    ensures MemberTexts(PrintMembers(ms))[1..] == MemberTexts(PrintMembers(ms[1..]))
  {
  }

  predicate PrintAlike(v: Json, w: Json) {
    Print(v) == Print(w) && (v.Undef? <==> w.Undef?)
  }

  lemma ItemsAlike(vs: seq<Json>, ws: seq<Json>)
    requires |vs| == |ws| && forall i | 0 <= i < |vs| :: PrintAlike(vs[i], ws[i])
    ensures PrintItems(vs) == PrintItems(ws)
  {
    var ts, us := PrintItems(vs), PrintItems(ws);
    forall i | 0 <= i < |vs| ensures ts[i] == us[i] {
      assert PrintAlike(vs[i], ws[i]);
    }
  }

  lemma MembersAlike(ms: seq<Member<Json>>, ns: seq<Member<Json>>)
    requires |ms| == |ns| && forall i | 0 <= i < |ms| :: ms[i].key == ns[i].key && PrintAlike(ms[i].value, ns[i].value)
    ensures PrintMembers(ms) == PrintMembers(ns)
  {
    var ts, us := PrintMembers(ms), PrintMembers(ns);
    forall i | 0 <= i < |ms| ensures ts[i] == us[i] {
      assert PrintAlike(ms[i].value, ns[i].value);
    }
  }

  /** Emptying an array whose only element is `undefined` leaves no trace in the text. */
  lemma {:induction false} PrintSqueezed(v: Json)
    ensures Print(Squeezed(v)) == Print(v)
  {
    match v
    case Arr(items) =>
      if items == [Undef] {
        assert PrintItems(items) == [[]] && PrintItems([]) == [];
      } else {
        forall i | 0 <= i < |items| ensures PrintAlike(SqueezedItems(items)[i], items[i]) {
          PrintSqueezed(items[i]);
        }
        ItemsAlike(SqueezedItems(items), items);
      }
    case Obj(ms) =>
      forall i | 0 <= i < |ms| ensures PrintAlike(SqueezedMembers(ms)[i].value, ms[i].value) {
        PrintSqueezed(ms[i].value);
      }
      MembersAlike(SqueezedMembers(ms), ms);
    case _ =>
  }

  /** No two values share a text, nor do any of their continuations, but for those arrays. */
  lemma PrintUniquelyDecodable(a: Json, b: Json, x: Text, y: Text)
    requires EndsBefore(a, x) && EndsBefore(b, y)
    ensures Print(a) + x == Print(b) + y <==> Squeezed(a) == Squeezed(b) && x == y
  {
    RoundTrip(a, x);
    RoundTrip(b, y);
    PrintSqueezed(a);
    PrintSqueezed(b);
  }

  /** Texts agree exactly if the values do, but for those arrays. */
  lemma PrintIdentifies(a: Json, b: Json)
    ensures Print(a) == Print(b) <==> Squeezed(a) == Squeezed(b)
  {
    PrintUniquelyDecodable(a, b, [], []);
    assert Print(a) + [] == Print(a) && Print(b) + [] == Print(b);
  }

  lemma NumberHead(v: Json)
    ensures v.Num? <==> Print(v)[..1] == [MINUS] || (Print(v) != [] && Digit(Print(v)[0]))
  {
    if v.Num? {
      PrintNatDigits(if v.n < 0 then -v.n else v.n);
    } else if v.Undef? || v.Null? || v.Bool? {
      WordRoundTrip(v, []);
    }
  }

  /** No text of a value is a proper prefix of another's, but for two numbers. */
  lemma PrefixFree(a: Json, b: Json)
    requires Print(a) <= Print(b)
    ensures Print(a) == Print(b) || (a.Num? && b.Num?)
  {
    var rest := Print(b)[|Print(a)|..];
    assert Print(a) + rest == Print(b) == Print(b) + [];
    PrintHead(a);
    NumberHead(a);
    NumberHead(b);
    if !a.Num? {
      PrintUniquelyDecodable(a, b, rest, []);
      assert Print(a) + [] == Print(a);
    }
  }

  /** Numbers are the exception: a digit appended to the text of one gives the text of another. */
  lemma NumbersRunOn(n: nat, d: nat)
    requires n > 0 && d < 10
    ensures Print(Num(n)) + [0x30 + d] == Print(Num(10 * n + d))
  {
  }

  // ---------------------------------------------------------------- what a text is made of

  /** Well-formed UTF-16 without control characters: nothing is lost when it is written out in UTF-8,
      and no line feed stands in it. */
  ghost predicate Printable(t: Text) {
    WellFormed(t) && forall i | 0 <= i < |t| :: t[i] >= 0x20
  }

  lemma PrintableConcat(a: Text, b: Text)
    requires Printable(a) && Printable(b)
    ensures Printable(a + b)
  {
    WellFormedConcat(a, b);
  }

  lemma {:induction false} PrintableBasic(t: Text)
    requires forall i | 0 <= i < |t| :: 0x20 <= t[i] < 0xD800
    ensures Printable(t)
  {
    if t != [] {
      PrintableBasic(t[1..]);
    }
  }

  lemma PairPrintable(p: Text)
    requires |p| == 2 && PairAt(p, 0)
    ensures Printable(p)
  {
    assert p[2..] == [];
  }

  lemma {:induction false} QuoteLastPrintable(s: Text, n: nat)
    requires n <= |s|
    ensures Printable(QuoteLast(s, n))
    decreases n
  {
    var i := |s| - n;
    if n == 0 {
    } else if PairAt(s, i) {
      QuoteLastPrintable(s, n - 2);
      PairPrintable(s[i..i + 2]);
      PrintableConcat(s[i..i + 2], QuoteLast(s, n - 2));
    } else {
      QuoteLastPrintable(s, n - 1);
      EscapePrintable(s[i]);
      PrintableConcat(Escape(s[i]), QuoteLast(s, n - 1));
    }
  }

  lemma EscapePrintable(u: Unit)
    ensures Printable(Escape(u))
  {
    if Escape(u) == [u] {
      assert [u][1..] == [];
    } else {
      PrintableBasic(Escape(u));
    }
  }

  lemma QuotePrintable(s: Text)
    ensures Printable(Quote(s))
  {
    QuoteLastPrintable(s, |s|);
    PrintableBasic([QUOTE]);
    PrintableConcat([QUOTE], QuoteBody(s));
    PrintableConcat([QUOTE] + QuoteBody(s), [QUOTE]);
  }

  lemma {:induction false} JoinPrintable(ts: seq<Text>)
    requires forall i | 0 <= i < |ts| :: Printable(ts[i])
    ensures Printable(Join(ts))
  {
    if |ts| > 1 {
      JoinPrintable(ts[1..]);
      PrintableBasic([COMMA]);
      PrintableConcat(ts[0], [COMMA]);
      PrintableConcat(ts[0] + [COMMA], Join(ts[1..]));
    }
  }

  lemma Bracketed(l: Unit, body: Text, r: Unit)
    requires 0x20 <= l < 0xD800 && 0x20 <= r < 0xD800 && Printable(body)
    ensures Printable([l] + body + [r])
  {
    PrintableBasic([l]);
    PrintableBasic([r]);
    PrintableConcat([l], body);
    PrintableConcat([l] + body, [r]);
  }

  /** Every text printed is well-formed UTF-16 without a raw control character. */
  lemma {:induction false} PrintPrintable(v: Json)
    ensures Printable(Print(v))
  {
    match v
    case Num(n) =>
      PrintNatDigits(if n < 0 then -n else n);
      PrintableBasic(PrintInt(n));
    case Str(s) => QuotePrintable(s);
    case Arr(items) =>
      var ts := PrintItems(items);
      forall i | 0 <= i < |ts| ensures Printable(ts[i]) {
        if !items[i].Undef? {
          PrintPrintable(items[i]);
        }
      }
      JoinPrintable(ts);
      Bracketed(LBRACKET, Join(ts), RBRACKET);
    case Obj(ms) =>
      var ts := MemberTexts(PrintMembers(ms));
      forall i | 0 <= i < |ts| ensures Printable(ts[i]) {
        PrintPrintable(ms[i].value);
        MemberPrintable(ms[i].key, Print(ms[i].value));
      }
      JoinPrintable(ts);
      Bracketed(LBRACE, Join(ts), RBRACE);
    case _ => PrintableBasic(Print(v));
  }

  lemma MemberPrintable(key: Text, value: Text)
    requires Printable(value)
    ensures Printable(MemberText(Member(key, value)))
  {
    QuotePrintable(key);
    PrintableBasic([COLON]);
    PrintableConcat(Quote(key), [COLON]);
    PrintableConcat(Quote(key) + [COLON], value);
  }
}
