/**
 The DID-proof envelope: `SHADI-DID-PROOF/1`, the signer's DID and the signature, a line each,
 and then the payload as it is.
 */
module DidProof {
  import opened Wrappers
  import opened Text
  import opened Identity

  const MAGIC: Bytes := "SHADI-DID-PROOF/1"
  const DOMAIN: Bytes := "SHADI-DID-PROOF/1"
  const PAYLOAD_MAX: nat := 1024 * 1024
  const HEADER_MAX: nat := 1024

  datatype VerifiedPayload = VerifiedPayload(did: Bytes, payload: Bytes)

  /** The bytes an agent signs. */
  function Canonical(did: Bytes, payload: Bytes): Bytes {
    DOMAIN + "\0" + did + "\0" + payload
  }

  /** The envelope format, as one expression. */
  function Envelope(did: Bytes, sig: Bytes, payload: Bytes): Bytes {
    Line(MAGIC, Line(did, Line(sig, payload)))
  }

  predicate LooksLikeDidProof(bytes: Bytes) {
    StartsWith(bytes, MAGIC) && |bytes| > |MAGIC| && bytes[|MAGIC|] == '\n'
  }

  function Wrap(suite: Suite, identity: AgentIdentity, payload: Bytes): Result<Bytes, IdentityError> {
    if |payload| > PAYLOAD_MAX then Err(PayloadTooBig)
    else Ok(Envelope(identity.did, suite.base64Encode(identity.sign(Canonical(identity.did, payload))), payload))
  }

  /** The envelope is built by appending to one buffer. */
  method WrapSignedMessage(suite: Suite, identity: AgentIdentity, payload: Bytes)
    returns (r: Result<Bytes, IdentityError>)
    ensures r == Wrap(suite, identity, payload)
  {
    if |payload| > PAYLOAD_MAX {
      return Err(PayloadTooBig);
    }
    var sig := identity.sign(Canonical(identity.did, payload));
    var out := MAGIC;
    out := out + "\n";
    out := out + identity.did;
    out := out + "\n";
    out := out + suite.base64Encode(sig);
    out := out + "\n";
    out := out + payload;
    LineAppend(MAGIC, identity.did, "\n");
    LineAppend(MAGIC, identity.did + "\n", suite.base64Encode(sig));
    LineAppend(MAGIC, Line(identity.did, suite.base64Encode(sig)), "\n");
    LineAppend(MAGIC, Line(identity.did, suite.base64Encode(sig)) + "\n", payload);
    LineAppend(identity.did, suite.base64Encode(sig), "\n");
    LineAppend(identity.did, suite.base64Encode(sig) + "\n", payload);
    return Ok(out);
  }

  /** What `split_envelope` asks of the parts. */
  predicate PartsFit(did: Bytes, sig: Bytes, payload: Bytes) {
    && did != "" && sig != ""
    && |did| <= HEADER_MAX && |sig| <= HEADER_MAX && |payload| <= PAYLOAD_MAX
    && Utf8(did) && Utf8(sig)
  }

  function CheckParts(headers: seq<Bytes>, payload: Bytes): Result<(Bytes, Bytes, Bytes), IdentityError>
    requires |headers| == 3
  {
    if headers[0] != MAGIC then Err(BadMagic)
    else if |headers[1]| > HEADER_MAX || |headers[2]| > HEADER_MAX then Err(HeaderTooLong)
    else if !Utf8(headers[1]) || !Utf8(headers[2]) then Err(NotUtf8)
    else if headers[1] == "" || headers[2] == "" then Err(MissingHeader)
    else if |payload| > PAYLOAD_MAX then Err(PayloadTooBig)
    else Ok((headers[1], headers[2], payload))
  }

  /** The next `n` lines of `rest` after the ones already read, and the bytes after them. */
  function Headers(rest: Bytes, read: seq<Bytes>, n: nat): (r: Result<(seq<Bytes>, Bytes), IdentityError>)
    ensures r.Ok? ==> |r.value.0| == |read| + n
    decreases n
  {
    if n == 0 then Ok((read, rest)) else
    var cut := CutLine(rest);
    if cut.None? then Err(Truncated) else Headers(cut.value.1, read + [cut.value.0], n - 1)
  }

  function SplitEnvelope(bytes: Bytes): Result<(Bytes, Bytes, Bytes), IdentityError> {
    var (headers, payload) :- Headers(bytes, [], 3);
    CheckParts(headers, payload)
  }

  lemma CutAt(bytes: Bytes, start: nat)
    requires start <= |bytes|
    ensures var rel := IndexOf(bytes[start..], '\n');
            CutLine(bytes[start..])
            == if rel == |bytes| - start then None else Some((bytes[start..start + rel], bytes[start + rel + 1..]))
  {
    var rel := IndexOf(bytes[start..], '\n');
    if rel < |bytes| - start {
      assert bytes[start..][..rel] == bytes[start..start + rel];
      assert bytes[start..][rel + 1..] == bytes[start + rel + 1..];
    }
  }

  lemma HeadersAt(bytes: Bytes, start: nat, read: seq<Bytes>, n: nat)
    requires start <= |bytes| && n > 0
    ensures var rel := IndexOf(bytes[start..], '\n');
            Headers(bytes[start..], read, n)
            == if rel == |bytes| - start then Err(Truncated)
               else Headers(bytes[start + rel + 1..], read + [bytes[start..start + rel]], n - 1)
  {
    CutAt(bytes, start);
  }

  lemma HeadersDone(rest: Bytes, read: seq<Bytes>)
    ensures Headers(rest, read, 0) == Ok((read, rest))
  {
  }

  /** The loop over `start` and `headers`; its slices are always in bounds. */
  method ReadHeaders(bytes: Bytes, count: nat) returns (r: Result<(seq<Bytes>, Bytes), IdentityError>)
    ensures r == Headers(bytes, [], count)
  {
    hide Headers, IndexOf;
    var start: nat := 0;
    var headers: seq<Bytes> := [];
    assert bytes[0..] == bytes;
    for i := 0 to count
      invariant start <= |bytes|
      invariant Headers(bytes, [], count) == Headers(bytes[start..], headers, count - i)
    {
      HeadersAt(bytes, start, headers, count - i);
      var rel := IndexOf(bytes[start..], '\n');
      if rel == |bytes| - start {
        return Err(Truncated);
      }
      headers := headers + [bytes[start..start + rel]];
      start := start + rel + 1;
    }
    HeadersDone(bytes[start..], headers);
    return Ok((headers, bytes[start..]));
  }

  method SplitEnvelopeLoop(bytes: Bytes) returns (r: Result<(Bytes, Bytes, Bytes), IdentityError>)
    ensures r == SplitEnvelope(bytes)
  {
    var read :- ReadHeaders(bytes, 3);
    hide CheckParts, Headers;
    return CheckParts(read.0, read.1);
  }

  lemma {:induction false} HeadersStep(line: Bytes, rest: Bytes, read: seq<Bytes>, n: nat)
    requires '\n' !in line && n > 0
    ensures Headers(Line(line, rest), read, n) == Headers(rest, read + [line], n - 1)
  {
    CutLineOf(line, rest);
  }

  lemma {:induction false} ThreeHeaders(a: Bytes, b: Bytes, c: Bytes, rest: Bytes)
    requires '\n' !in a && '\n' !in b && '\n' !in c
    ensures Headers(Line(a, Line(b, Line(c, rest))), [], 3) == Ok(([a, b, c], rest))
  {
    hide Headers, Line;
    HeadersStep(a, Line(b, Line(c, rest)), [], 3);
    HeadersStep(b, Line(c, rest), [] + [a], 2);
    HeadersStep(c, rest, [] + [a] + [b], 1);
    HeadersDone(rest, [] + [a] + [b] + [c]);
    assert [] + [a] + [b] + [c] == [a, b, c];
  }

  lemma {:induction false} HeadersRejoin(bytes: Bytes)
    requires Headers(bytes, [], 3).Ok?
    ensures var (h, rest) := Headers(bytes, [], 3).value;
            bytes == Line(h[0], Line(h[1], Line(h[2], rest))) && '\n' !in h[0] && '\n' !in h[1] && '\n' !in h[2]
  {
    hide Headers;
    HeadersCut(bytes, [], 3);
    var (a, rest1) := CutLine(bytes).value;
    HeadersCut(rest1, [] + [a], 2);
    var (b, rest2) := CutLine(rest1).value;
    HeadersCut(rest2, [] + [a] + [b], 1);
    var (c, rest3) := CutLine(rest2).value;
    HeadersDone(rest3, [] + [a] + [b] + [c]);
  }

  lemma HeadersCut(bytes: Bytes, read: seq<Bytes>, n: nat)
    requires n > 0 && Headers(bytes, read, n).Ok?
    ensures CutLine(bytes).Some?
    ensures Headers(bytes, read, n) == Headers(CutLine(bytes).value.1, read + [CutLine(bytes).value.0], n - 1)
  {
  }

  lemma {:induction false} SplitOfEnvelope(did: Bytes, sig: Bytes, payload: Bytes)
    requires '\n' !in did && '\n' !in sig
    ensures SplitEnvelope(Envelope(did, sig, payload)) == CheckParts([MAGIC, did, sig], payload)
  {
    ThreeHeaders(MAGIC, did, sig, payload);
  }

  lemma {:induction false} SplitRejoins(bytes: Bytes)
    requires SplitEnvelope(bytes).Ok?
    ensures var (did, sig, payload) := SplitEnvelope(bytes).value;
            bytes == Envelope(did, sig, payload) && '\n' !in did && '\n' !in sig && PartsFit(did, sig, payload)
  {
    HeadersRejoin(bytes);
  }

  /** Splitting is the exact inverse of writing the envelope: it succeeds on nothing else, and what
      it returns rejoins to the input. */
  lemma {:induction false} SplitEnvelopeExact(bytes: Bytes, did: Bytes, sig: Bytes, payload: Bytes)
    ensures SplitEnvelope(bytes) == Ok((did, sig, payload))
            <==> bytes == Envelope(did, sig, payload) && '\n' !in did && '\n' !in sig && PartsFit(did, sig, payload)
  {
    if SplitEnvelope(bytes) == Ok((did, sig, payload)) {
      SplitRejoins(bytes);
    } else if '\n' !in did && '\n' !in sig {
      SplitOfEnvelope(did, sig, payload);
    }
  }

  function Unwrap(suite: Suite, envelope: Bytes): Result<VerifiedPayload, IdentityError> {
    if !LooksLikeDidProof(envelope) then Err(NotAnEnvelope) else
    var (did, sigText, payload) :- SplitEnvelope(envelope);
    if !StartsWith(did, "did:key:") then Err(InvalidDid) else
    var key :- ParseDidKey(suite, did);
    var sig := suite.base64Decode(sigText);
    if sig.None? then Err(BadEncoding)
    else if |sig.value| != 64 then Err(BadSignatureLength)
    else if !suite.verifyStrict(key, Canonical(did, payload), sig.value) then Err(BadSignature)
    else Ok(VerifiedPayload(did, payload))
  }

  lemma {:induction false} EnvelopeLooksLikeDidProof(rest: Bytes)
    ensures LooksLikeDidProof(Line(MAGIC, rest))
  {
    assert Line(MAGIC, rest)[..|MAGIC|] == MAGIC;
  }

  /** Every payload up to the cap round-trips under its signer's DID, and no bigger one is wrapped. */
  lemma {:induction false} UnwrapWrap(suite: Suite, identity: AgentIdentity, payload: Bytes)
    requires suite.Lawful() && identity.Genuine(suite)
    ensures Wrap(suite, identity, payload).Ok? <==> |payload| <= PAYLOAD_MAX
    ensures |payload| <= PAYLOAD_MAX ==>
              Unwrap(suite, Wrap(suite, identity, payload).value) == Ok(VerifiedPayload(identity.did, payload))
  {
    if |payload| <= PAYLOAD_MAX {
      var did := identity.did;
      var raw := identity.sign(Canonical(did, payload));
      var sig := suite.base64Encode(raw);
      ParsedDidIsPlain(suite, did);
      SignatureTextIsPlain(suite, raw);
      EnvelopeLooksLikeDidProof(Line(did, Line(sig, payload)));
      SplitEnvelopeExact(Envelope(did, sig, payload), did, sig, payload);
      assert did[..8] == did[..9][..8] == "did:key:";
    }
  }

  lemma UnwrapChecks(suite: Suite, envelope: Bytes)
    requires Unwrap(suite, envelope).Ok?
    ensures SplitEnvelope(envelope).Ok?
    ensures var (did, sig, payload) := SplitEnvelope(envelope).value;
            && Unwrap(suite, envelope).value == VerifiedPayload(did, payload)
            && ParseDidKey(suite, did).Ok? && suite.base64Decode(sig).Some?
            && suite.verifyStrict(ParseDidKey(suite, did).value, Canonical(did, payload), suite.base64Decode(sig).value)
  {
    hide LooksLikeDidProof, Canonical, StartsWith;
  }

  /** Whatever unwraps is an envelope around exactly that payload, signed under the DID it names. */
  lemma {:induction false} UnwrapIsAuthentic(suite: Suite, envelope: Bytes) returns (sig: Bytes)
    requires Unwrap(suite, envelope).Ok?
    ensures var v := Unwrap(suite, envelope).value;
            && envelope == Envelope(v.did, sig, v.payload) && |v.payload| <= PAYLOAD_MAX
            && ParseDidKey(suite, v.did).Ok? && suite.base64Decode(sig).Some?
            && suite.verifyStrict(ParseDidKey(suite, v.did).value, Canonical(v.did, v.payload),
                                  suite.base64Decode(sig).value)
  {
    UnwrapChecks(suite, envelope);
    hide Unwrap, SplitEnvelope, ParseDidKey, Canonical, Envelope;
    var parts := SplitEnvelope(envelope).value;
    SplitEnvelopeExact(envelope, parts.0, parts.1, parts.2);
    sig := parts.1;
  }
}
