/**
 `did:key` identities over an abstract signature scheme.

 Nothing is assumed of one particular library: a `Suite` bundles the encodings and the two
 Ed25519 checks as functions, `Lawful` states what the codecs need of the encodings, and
 `Genuine` states that an identity's signatures are accepted under the key its DID names
 (RFC 8032, section 5.1). Every result is for all lawful suites and genuine identities.
 */
module Identity {
  import opened Wrappers
  import opened Text

  /** Why an identity operation was refused; the source's message texts are not modelled. */
  datatype IdentityError =
    | InvalidDid
    | KeyGen
    | EmptyField | NewlineInField | FieldTooLong
    | PayloadTooBig | NotAnEnvelope | Truncated | BadMagic | HeaderTooLong | NotUtf8 | MissingHeader
    | BadEncoding | BadSignatureLength | BadSignature
    | CertificateTooBig | MissingField | LineTooLong | BadExpiry | Lapsed
    | BadName | BadAudience | BadTtl | BadAction | BadRole | GrantTooBig

  type Key = Bytes

  const DID_PREFIX: Bytes := "did:key:z"

  datatype Suite = Suite(
    base58Decode: Bytes -> Option<Bytes>,
    /** Whether 32 bytes are a point Ed25519 accepts as a public key. */
    validPoint: Bytes -> bool,
    verify: (Key, Bytes, Bytes) -> bool,
    verifyStrict: (Key, Bytes, Bytes) -> bool,
    /** Unpadded base64url, RFC 4648, section 5. */
    base64Encode: Bytes -> Bytes,
    base64Decode: Bytes -> Option<Bytes>,
    /** Padded base64, RFC 4648, section 4. */
    base64StdEncode: Bytes -> Bytes,
    base64StdDecode: Bytes -> Option<Bytes>
  ) {
    /** What the encodings promise: base58 text is alphanumeric and 34 bytes take at most 47
        digits; base64 decodes the bytes it encoded, and a 64-byte signature takes 86 characters
        unpadded and 88 padded. */
    ghost predicate Lawful() {
      && (forall s :: base58Decode(s).Some? ==> Alphanumeric(s))
      && (forall s :: base58Decode(s).Some? && |base58Decode(s).value| == 34 ==> |s| <= 47)
      && (forall b :: Octets(b) ==> base64Decode(base64Encode(b)) == Some(b))
      && (forall b :: Octets(b) && |b| == 64 ==> |base64Encode(b)| == 86)
      && (forall b :: Octets(b) ==> Base64Text(base64Encode(b)))
      && (forall b :: Octets(b) ==> base64StdDecode(base64StdEncode(b)) == Some(b))
      && (forall b :: Octets(b) && |b| == 64 ==> |base64StdEncode(b)| == 88)
      && (forall b :: Octets(b) ==> Base64StdText(base64StdEncode(b)))
    }
  }

  /** A signing key, seen from outside: its DID and the signatures it makes. */
  datatype AgentIdentity = AgentIdentity(did: Bytes, sign: Bytes -> Bytes) {
    ghost predicate Genuine(suite: Suite) {
      && ParseDidKey(suite, did).Ok?
      && forall m :: |sign(m)| == 64 && Octets(sign(m))
                     && suite.verify(ParseDidKey(suite, did).value, m, sign(m))
                     && suite.verifyStrict(ParseDidKey(suite, did).value, m, sign(m))
    }
  }

  predicate Alphanumeric(s: Bytes) {
    forall k :: 0 <= k < |s| ==> '0' <= s[k] <= '9' || 'A' <= s[k] <= 'Z' || 'a' <= s[k] <= 'z'
  }

  predicate Base64Text(s: Bytes) {
    forall k :: 0 <= k < |s| ==>
      '0' <= s[k] <= '9' || 'A' <= s[k] <= 'Z' || 'a' <= s[k] <= 'z' || s[k] == '-' || s[k] == '_'
  }

  predicate Base64StdText(s: Bytes) {
    forall k :: 0 <= k < |s| ==>
      '0' <= s[k] <= '9' || 'A' <= s[k] <= 'Z' || 'a' <= s[k] <= 'z' || s[k] == '+' || s[k] == '/' || s[k] == '='
  }

  /** `parse_did_key`. */
  function ParseDidKey(suite: Suite, did: Bytes): Result<Key, IdentityError> {
    if !StartsWith(did, DID_PREFIX) then Err(InvalidDid) else
    var decoded := suite.base58Decode(did[|DID_PREFIX|..]);
    if decoded.None? || |decoded.value| != 34 || decoded.value[0] as int != 0xED || decoded.value[1] as int != 0x01
       || !suite.validPoint(decoded.value[2..])
    then Err(InvalidDid)
    else Ok(decoded.value[2..])
  }

  /** A DID that parses can be put on a line and between NULs: it is short ASCII text. */
  lemma {:induction false} ParsedDidIsPlain(suite: Suite, did: Bytes)
    requires suite.Lawful() && ParseDidKey(suite, did).Ok?
    ensures Ascii(did) && 9 <= |did| <= 56
    ensures forall k :: 0 <= k < |did| ==> did[k] > ' '
    ensures '\0' !in did && '\n' !in did && SingleLine(did) && !Blank(did) && Utf8(did)
  {
    var rest := did[|DID_PREFIX|..];
    assert did == DID_PREFIX + rest;
    assert forall k :: 9 <= k < |did| ==> did[k] == rest[k - 9];
    assert did[0] == 'd' && WhiteStep(did) == 0;
    AsciiIsUtf8(did);
  }

  /** So can a signature, once encoded. */
  lemma {:induction false} SignatureTextIsPlain(suite: Suite, sig: Bytes)
    requires suite.Lawful() && |sig| == 64 && Octets(sig)
    ensures var text := suite.base64Encode(sig);
            && |text| == 86 && '\n' !in text && Utf8(text)
            && suite.base64Decode(text) == Some(sig)
  {
    var text := suite.base64Encode(sig);
    assert Base64Text(text);
    assert Ascii(text);
    AsciiIsUtf8(text);
  }
}
