/** UTF-16 text, its Unicode scalar values, their UTF-8 bytes, and the orders on them. */
module Unicode {

  type Unit = u: int | 0 <= u < 0x10000

  type Text = seq<Unit>

  type Scalar = c: int | 0 <= c < 0xD800 || 0xE000 <= c < 0x110000

  predicate High(u: int) { 0xD800 <= u < 0xDC00 }

  predicate Low(u: int) { 0xDC00 <= u < 0xE000 }

  /** A surrogate pair starts at position `i`. */
  predicate PairAt(s: Text, i: nat) {
    i + 1 < |s| && High(s[i]) && Low(s[i + 1])
  }

  predicate Ascii(t: Text) {
    forall i | 0 <= i < |t| :: t[i] < 0x80
  }

  /** The text of an ASCII literal. */
  function U(s: string): (t: Text)
    requires forall i | 0 <= i < |s| :: s[i] < '\U{80}'
    ensures |t| == |s| && Ascii(t)
    ensures forall i | 0 <= i < |s| :: t[i] == s[i] as int
  {
    seq(|s|, i requires 0 <= i < |s| => s[i] as int)
  }

  // ---------------------------------------------------------------- UTF-16

  /** UTF-16 code units of one scalar value (section 2.1 of RFC 2781). */
  function Utf16Of(c: Scalar): Text {
    if c < 0x10000 then [c] else [0xD800 + (c - 0x10000) / 0x400, 0xDC00 + (c - 0x10000) % 0x400]
  }

  function Utf16(cs: seq<Scalar>): Text {
    if cs == [] then [] else Utf16Of(cs[0]) + Utf16(cs[1..])
  }

  /** Scalar values of a text; a lone surrogate reads as U+FFFD, as when a text is written out in UTF-8. */
  function Scalars(s: Text): seq<Scalar> {
    if s == [] then []
    else if PairAt(s, 0) then [0x10000 + (s[0] as int - 0xD800) * 0x400 + (s[1] as int - 0xDC00)] + Scalars(s[2..])
    else [if High(s[0]) || Low(s[0]) then 0xFFFD else s[0]] + Scalars(s[1..])
  }

  predicate WellFormed(s: Text) {
    if s == [] then true
    else if PairAt(s, 0) then WellFormed(s[2..])
    else !High(s[0]) && !Low(s[0]) && WellFormed(s[1..])
  }

  lemma {:induction false} AsciiWellFormed(t: Text)
    requires Ascii(t)
    ensures WellFormed(t)
  {
    if t != [] {
      AsciiWellFormed(t[1..]);
    }
  }

  lemma {:induction false} WellFormedConcat(a: Text, b: Text)
    requires WellFormed(a)
    ensures WellFormed(a + b) <==> WellFormed(b)
  {
    if a == [] {
      assert a + b == b;
    } else {
      var n := if PairAt(a, 0) then 2 else 1;
      WellFormedConcat(a[n..], b);
      assert (a + b)[n..] == a[n..] + b;
    }
  }

  lemma {:induction false} EncodedIsWellFormed(cs: seq<Scalar>)
    ensures WellFormed(Utf16(cs)) && Scalars(Utf16(cs)) == cs
  {
    if cs != [] {
      var u, t := Utf16Of(cs[0]), Utf16(cs[1..]);
      EncodedIsWellFormed(cs[1..]);
      assert (u + t)[|u|..] == t;
      assert cs == [cs[0]] + cs[1..];
    }
  }

  lemma {:induction false} WellFormedIsEncoded(s: Text)
    requires WellFormed(s)
    ensures Utf16(Scalars(s)) == s
  {
    if s != [] {
      var n := if PairAt(s, 0) then 2 else 1;
      WellFormedIsEncoded(s[n..]);
      var cs := Scalars(s);
      assert cs[1..] == Scalars(s[n..]);
      assert Utf16Of(cs[0]) == s[..n];
      assert s == s[..n] + s[n..];
    }
  }

  /** A text is well formed exactly when it encodes some sequence of scalar values. */
  lemma WellFormedIffEncoding(s: Text)
    ensures WellFormed(s) <==> exists cs: seq<Scalar> :: Utf16(cs) == s
  {
    if WellFormed(s) {
      WellFormedIsEncoded(s);
    }
    forall cs: seq<Scalar> | Utf16(cs) == s ensures WellFormed(s) {
      EncodedIsWellFormed(cs);
    }
  }

  datatype Scan = Sound | LoneHigh(at: nat) | LoneLow(at: nat)

  /** The surrogate scan: it accepts exactly the encodings of scalar sequences, and otherwise
      reports the unit that no sound prefix can get past. */
  method AssertValidUnicodeScalarString(value: Text) returns (r: Scan)
    ensures r.Sound? <==> WellFormed(value)
    ensures r.Sound? <==> exists cs: seq<Scalar> :: Utf16(cs) == value
    ensures !r.Sound? ==> r.at < |value| && WellFormed(value[..r.at]) && !PairAt(value, r.at)
    ensures r.LoneHigh? ==> High(value[r.at])
    ensures r.LoneLow? ==> Low(value[r.at])
  {
    WellFormedIffEncoding(value);
    var index := 0;
    while index < |value|
      invariant 0 <= index <= |value|
      invariant WellFormed(value[..index])
    {
      var codeUnit := value[index];
      WellFormedConcat(value[..index], value[index..]);
      assert value == value[..index] + value[index..];
      if High(codeUnit) {
        if !(index + 1 < |value| && Low(value[index + 1])) {
          return LoneHigh(index);
        }
        WellFormedConcat(value[..index], value[index..index + 2]);
        assert value[..index + 2] == value[..index] + value[index..index + 2];
        index := index + 2;
      } else if Low(codeUnit) {
        return LoneLow(index);
      } else {
        WellFormedConcat(value[..index], [codeUnit]);
        assert value[..index + 1] == value[..index] + [codeUnit];
        index := index + 1;
      }
    }
    assert value[..index] == value;
    return Sound;
  }

  // ---------------------------------------------------------------- orders

  /** Lexicographic order; it serves bytes, code units and code points alike. */
  predicate Less(a: seq<int>, b: seq<int>) {
    b != [] && (a == [] || a[0] < b[0] || (a[0] == b[0] && Less(a[1..], b[1..])))
  }

  lemma {:induction false} LessTrichotomy(a: seq<int>, b: seq<int>)
    ensures !(Less(a, b) && Less(b, a))
    ensures !Less(a, b) && !Less(b, a) ==> a == b
    ensures a == b ==> !Less(a, b)
  {
    if a != [] && b != [] && a[0] == b[0] {
      LessTrichotomy(a[1..], b[1..]);
      assert a == [a[0]] + a[1..] && b == [b[0]] + b[1..];
    }
  }

  lemma {:induction false} LessTransitive(a: seq<int>, b: seq<int>, c: seq<int>)
    requires Less(a, b) && Less(b, c)
    ensures Less(a, c)
  {
    if a != [] && a[0] == b[0] == c[0] {
      LessTransitive(a[1..], b[1..], c[1..]);
    }
  }

  lemma {:induction false} LessSharedPrefix(p: seq<int>, a: seq<int>, b: seq<int>)
    ensures Less(p + a, p + b) <==> Less(a, b)
  {
    if p == [] {
      assert p + a == a && p + b == b;
    } else {
      LessSharedPrefix(p[1..], a, b);
      assert (p + a)[1..] == p[1..] + a && (p + b)[1..] == p[1..] + b;
    }
  }

  /** A first difference at position `k` decides the order, whatever follows. */
  lemma LessAtDifference(a: seq<int>, b: seq<int>, k: nat)
    requires k < |a| && k < |b| && a[..k] == b[..k] && a[k] < b[k]
    ensures Less(a, b)
  {
    LessSharedPrefix(a[..k], a[k..], b[k..]);
    assert a == a[..k] + a[k..] && b == b[..k] + b[k..];
  }

  // ---------------------------------------------------------------- UTF-8

  /** UTF-8 bytes of one scalar value (section 3 of RFC 3629). */
  function Utf8Of(c: Scalar): seq<int> {
    if c < 0x80 then [c]
    else if c < 0x800 then [0xC0 + c / 0x40, 0x80 + c % 0x40]
    else if c < 0x10000 then [0xE0 + c / 0x1000, 0x80 + c / 0x40 % 0x40, 0x80 + c % 0x40]
    else [0xF0 + c / 0x40000, 0x80 + c / 0x1000 % 0x40, 0x80 + c / 0x40 % 0x40, 0x80 + c % 0x40]
  }

  function Utf8(cs: seq<Scalar>): seq<int> {
    if cs == [] then [] else Utf8Of(cs[0]) + Utf8(cs[1..])
  }

  /** The key order of the strict canonicalizer: by the UTF-8 bytes of the texts. */
  predicate Utf8Before(a: Text, b: Text) {
    Less(Utf8(Scalars(a)), Utf8(Scalars(b)))
  }

  lemma Base64Digits(c: int)
    requires 0 <= c
    ensures c / 0x1000 == c / 0x40 / 0x40 && c / 0x40000 == c / 0x1000 / 0x40
  {
  }

  lemma SmallerDigit(a: int, b: int)
    requires 0 <= a < b
    ensures a / 0x40 < b / 0x40 || (a / 0x40 == b / 0x40 && a % 0x40 < b % 0x40)
  {
  }

  /** The first base-64 digit, most significant first, in which two numbers differ. */
  lemma FirstSmallerDigit(a: int, b: int) returns (k: nat)
    requires 0 <= a < b
    ensures k < 4
    ensures k == 0 ==> a / 0x40000 < b / 0x40000
    ensures k > 0 ==> a / 0x40000 == b / 0x40000
    ensures k == 1 ==> a / 0x1000 % 0x40 < b / 0x1000 % 0x40
    ensures k > 1 ==> a / 0x1000 == b / 0x1000
    ensures k == 2 ==> a / 0x40 % 0x40 < b / 0x40 % 0x40
    ensures k > 2 ==> a / 0x40 == b / 0x40 && a % 0x40 < b % 0x40
  {
    Base64Digits(a);
    Base64Digits(b);
    SmallerDigit(a, b);
    if a / 0x40 == b / 0x40 {
      return 3;
    }
    SmallerDigit(a / 0x40, b / 0x40);
    if a / 0x1000 == b / 0x1000 {
      return 2;
    }
    SmallerDigit(a / 0x1000, b / 0x1000);
    return if a / 0x40000 == b / 0x40000 then 1 else 0;
  }

  predicate DiffersAt(x: seq<int>, y: seq<int>, k: nat) {
    k < |x| && k < |y| && x[..k] == y[..k] && x[k] < y[k]
  }

  lemma LongerEncodings(a: Scalar, b: Scalar)
    requires |Utf8Of(a)| < |Utf8Of(b)|
    ensures DiffersAt(Utf8Of(a), Utf8Of(b), 0)
  {
  }

  lemma TwoByteEncodings(a: Scalar, b: Scalar) returns (k: nat)
    requires 0x80 <= a < b < 0x800
    ensures DiffersAt(Utf8Of(a), Utf8Of(b), k)
  {
    SmallerDigit(a, b);
    k := if a / 0x40 < b / 0x40 then 0 else 1;
  }

  lemma ThreeByteEncodings(a: Scalar, b: Scalar) returns (k: nat)
    requires 0x800 <= a < b < 0x10000
    ensures DiffersAt(Utf8Of(a), Utf8Of(b), k)
  {
    var digit := FirstSmallerDigit(a, b);
    k := if digit < 2 then 0 else digit - 1;
  }

  lemma FourByteEncodings(a: Scalar, b: Scalar) returns (k: nat)
    requires 0x10000 <= a < b
    ensures DiffersAt(Utf8Of(a), Utf8Of(b), k)
  {
    k := FirstSmallerDigit(a, b);
  }

  /** Smaller scalars have smaller encodings, and the difference shows inside both encodings. */
  lemma Utf8OfOrder(a: Scalar, b: Scalar) returns (k: nat)
    requires a < b
    ensures DiffersAt(Utf8Of(a), Utf8Of(b), k)
  {
    if |Utf8Of(a)| < |Utf8Of(b)| {
      LongerEncodings(a, b);
      k := 0;
    } else if b < 0x80 {
      k := 0;
    } else if b < 0x800 {
      k := TwoByteEncodings(a, b);
    } else if b < 0x10000 {
      k := ThreeByteEncodings(a, b);
    } else {
      k := FourByteEncodings(a, b);
    }
  }

  /** The first differing scalar decides, whatever follows. */
  lemma Utf8OfDecides(a: Scalar, b: Scalar, p: seq<int>, q: seq<int>)
    requires a < b
    ensures Less(Utf8Of(a) + p, Utf8Of(b) + q) && !Less(Utf8Of(b) + q, Utf8Of(a) + p)
  {
    var k := Utf8OfOrder(a, b);
    var x, y := Utf8Of(a), Utf8Of(b);
    assert (x + p)[..k] == x[..k] && (y + q)[..k] == y[..k];
    LessAtDifference(x + p, y + q, k);
    LessTrichotomy(x + p, y + q);
  }

  lemma {:induction false} Utf8Order(x: seq<Scalar>, y: seq<Scalar>)
    ensures Less(Utf8(x), Utf8(y)) <==> Less(x, y)
  {
    if x != [] && y != [] {
      if x[0] == y[0] {
        Utf8Order(x[1..], y[1..]);
        LessSharedPrefix(Utf8Of(x[0]), Utf8(x[1..]), Utf8(y[1..]));
      } else if x[0] < y[0] {
        Utf8OfDecides(x[0], y[0], Utf8(x[1..]), Utf8(y[1..]));
      } else {
        Utf8OfDecides(y[0], x[0], Utf8(y[1..]), Utf8(x[1..]));
      }
    }
  }

  /** On well-formed texts the byte order is code point order, and it is a strict total order. */
  lemma Utf8BeforeIsCodePointOrder(a: Text, b: Text)
    requires WellFormed(a) && WellFormed(b)
    ensures Utf8Before(a, b) <==> Less(Scalars(a), Scalars(b))
    ensures !(Utf8Before(a, b) && Utf8Before(b, a))
    ensures !Utf8Before(a, b) && !Utf8Before(b, a) <==> a == b
    ensures forall c :: Utf8Before(a, b) && Utf8Before(b, c) ==> Utf8Before(a, c)
  {
    Utf8Order(Scalars(a), Scalars(b));
    Utf8Order(Scalars(b), Scalars(a));
    LessTrichotomy(Scalars(a), Scalars(b));
    WellFormedIsEncoded(a);
    WellFormedIsEncoded(b);
    forall c | Utf8Before(a, b) && Utf8Before(b, c) ensures Utf8Before(a, c) {
      LessTransitive(Utf8(Scalars(a)), Utf8(Scalars(b)), Utf8(Scalars(c)));
    }
  }

  predicate Surrogate(u: Unit) { High(u) || Low(u) }

  /** Where the two texts first differ, a surrogate meets a unit above the surrogates. */
  predicate Crossed(a: Text, b: Text) {
    && a != [] && b != []
    && if a[0] == b[0] then Crossed(a[1..], b[1..])
       else (Surrogate(a[0]) && b[0] >= 0xE000) || (Surrogate(b[0]) && a[0] >= 0xE000)
  }

  /** Code unit order is code point order exactly on the pairs of texts that are not crossed. */
  lemma {:induction false} UnitOrderExactly(a: Text, b: Text)
    requires WellFormed(a) && WellFormed(b)
    ensures (Less(a, b) <==> Less(Scalars(a), Scalars(b))) <==> !Crossed(a, b)
  {
    if a != [] && b != [] && a[0] == b[0] {
      if PairAt(a, 0) {
        if a[1] == b[1] {
          UnitOrderExactly(a[2..], b[2..]);
          assert a[1..][1..] == a[2..] && b[1..][1..] == b[2..];
        }
      } else {
        UnitOrderExactly(a[1..], b[1..]);
      }
    }
  }
}
