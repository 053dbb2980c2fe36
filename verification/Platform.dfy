/** The platform the engine runs on: hashing, signing, `JSON.parse` and `Date.parse`, any functions of these types. */
module Platform {
  import opened Unicode
  import opened Values
  import opened JsonText

  /** Outcome of a signature check; `Threw` is a malformed key or signature. */
  datatype SignatureCheck = Valid | Invalid | Threw

  datatype Platform = Platform(
    sha256: Text -> Text,
    parse: Text -> Option<Json>,
    sign: (Text, Text) -> Text,
    publicKey: Text -> Text,
    verify: (Json, Text, Json) -> SignatureCheck,
    dateParse: Json -> Option<int>
  )

  /** `JSON.parse` yields values without `undefined` and with distinct keys. */
  ghost predicate ParsesValues(p: Platform) {
    forall t :: p.parse(t).Some? ==> Proper(p.parse(t).value) && Defined(p.parse(t).value)
  }

  /** `JSON.parse` reads back what `JSON.stringify` writes. */
  ghost predicate ReadsBack(p: Platform) {
    forall v | Storable(v) :: p.parse(Print(v)) == Some(v)
  }

  /** Digests, keys and signatures are non-empty text, and a signature verifies under its own key. */
  ghost predicate SignsSoundly(p: Platform) {
    && (forall t :: p.sha256(t) != [])
    && (forall k :: p.publicKey(k) != [])
    && (forall k, m :: p.sign(k, m) != [] && p.verify(Str(p.publicKey(k)), m, Str(p.sign(k, m))) == Valid)
  }

  function DecodeWhole(t: Text): Option<Json> {
    match Decode(t)
    case Got(v, rest) => if rest == [] && Proper(v) && Defined(v) then Some(v) else None
    case Fail => None
  }

  /** The three assumptions can be met together: the decoder reads back every storable value. */
  lemma PlatformExists() returns (p: Platform)
    ensures ParsesValues(p) && ReadsBack(p) && SignsSoundly(p)
  {
    p := Platform(t => [0x30], DecodeWhole, (k, m) => [0x31], k => [0x32], (k, m, s) => Valid, d => None);
    forall v | Storable(v) ensures p.parse(Print(v)) == Some(v) {
      RoundTrip(v, []);
      DefinedIsDense(v);
      SqueezedOfDense(v);
      assert Print(v) + [] == Print(v);
    }
  }
}
