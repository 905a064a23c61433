/**
 Importing SD-JWT credentials: the tilde-separated text, the claims lifted into columns, and why a
 query on the columns finds what re-reading every stored text would find.
 */
module SdJwt {
  import opened Wrappers
  import opened Text
  import opened Identity
  import opened Credential
  import CredentialVault

  const FORMAT: Bytes := "dc+sd-jwt"
  const I64_MIN: int := -0x8000_0000_0000_0000
  const I64_MAX: int := 0x7FFF_FFFF_FFFF_FFFF

  // --- JSON claims ---------------------------------------------------------------------------

  /** A JSON number as `serde_json` holds it: an integer of at most 64 bits, or a float. */
  datatype Number = Whole(n: int) | Float(x: real) {
    function Exact(): real {
      match this case Whole(n) => n as real case Float(x) => x
    }

    /** `as_i64`, or else the floor of `as_f64` cast to `i64`, which saturates. */
    function Seconds(): int {
      match this
      case Whole(n) => if I64_MIN <= n <= I64_MAX then n else Saturated(n)
      case Float(x) => Saturated(x.Floor)
    }
  }

  function Saturated(n: int): int {
    if n < I64_MIN then I64_MIN else if n > I64_MAX then I64_MAX else n
  }

  datatype Json =
    | Null
    | Flag(flag: bool)
    | Num(number: Number)
    | Str(text: Bytes)
    | List(items: seq<Json>)
    | Object(fields: map<Bytes, Json>)
  {
    function Get(name: Bytes): Option<Json> {
      if Object? && name in fields then Some(fields[name]) else None
    }

    function GetText(name: Bytes): Option<Bytes> {
      var v := Get(name);
      if v.Some? && v.value.Str? then Some(v.value.text) else None
    }
  }

  datatype Malformed =
    | Empty | IsPresentation | MissingTilde | NotThreeSegments
    | NotBase64 | NotJson | MissingClaim(claim: Bytes) | WrongTyp | ExpNotANumber
    | NotKeyBound | WrongKeyType | BadKey
    | NotAnArray | NameNotText | WrongElementCount

  datatype Codec = Codec(
    /** Unpadded base64url. */
    base64: Bytes -> Option<Bytes>,
    json: Bytes -> Option<Json>,
    /** The `did:key` of 32 bytes that are an Ed25519 public key. */
    keyDid: Bytes -> Option<Bytes>)

  function DecodeJson(codec: Codec, segment: Bytes): Result<Json, Malformed> {
    var bytes := codec.base64(segment);
    if bytes.None? then Err(NotBase64) else
    var value := codec.json(bytes.value);
    if value.None? then Err(NotJson) else Ok(value.value)
  }

  function RequiredText(value: Json, claim: Bytes): Result<Bytes, Malformed> {
    var text := value.GetText(claim);
    if text.None? then Err(MissingClaim(claim)) else Ok(text.value)
  }

  // --- One credential ------------------------------------------------------------------------

  datatype Disclosure = Disclosure(name: Option<Bytes>, value: Json)

  datatype ParsedCredential = ParsedCredential(
    issuer: Bytes, credentialType: Bytes, format: Bytes, agentDid: Bytes, expiresAt: Option<int>,
    disclosures: seq<Disclosure>)

  function DidFromJwk(codec: Codec, jwk: Json): Result<Bytes, Malformed> {
    if jwk.GetText("kty") != Some("OKP") || jwk.GetText("crv") != Some("Ed25519") then Err(WrongKeyType) else
    var x :- RequiredText(jwk, "x");
    var bytes := codec.base64(x);
    if bytes.None? then Err(NotBase64)
    else if |bytes.value| != 32 || codec.keyDid(bytes.value).None? then Err(BadKey)
    else Ok(codec.keyDid(bytes.value).value)
  }

  function ParseDisclosure(codec: Codec, segment: Bytes): Result<Disclosure, Malformed> {
    var parsed :- DecodeJson(codec, segment);
    if !parsed.List? then Err(NotAnArray)
    else if |parsed.items| == 2 then Ok(Disclosure(None, parsed.items[1]))
    else if |parsed.items| != 3 then Err(WrongElementCount)
    else if !parsed.items[1].Str? then Err(NameNotText)
    else Ok(Disclosure(Some(parsed.items[1].text), parsed.items[2]))
  }

  function ParseDisclosures(codec: Codec, segments: seq<Bytes>): (r: Result<seq<Disclosure>, Malformed>)
    ensures r.Ok? ==> |r.value| == |segments|
                      && forall k :: 0 <= k < |segments| ==> ParseDisclosure(codec, segments[k]) == Ok(r.value[k])
  {
    if segments == [] then Ok([]) else
    var first :- ParseDisclosure(codec, segments[0]);
    var rest :- ParseDisclosures(codec, segments[1..]);
    Ok([first] + rest)
  }

  function ReadExp(payload: Json): Result<Option<int>, Malformed> {
    match payload.Get("exp")
    case None => Ok(None)
    case Some(Null) => Ok(None)
    case Some(Num(n)) => Ok(Some(n.Seconds()))
    case Some(_) => Err(ExpNotANumber)
  }

  function ReadFormat(header: Json): Result<Bytes, Malformed> {
    var format :- RequiredText(header, "typ");
    if format == FORMAT then Ok(format) else Err(WrongTyp)
  }

  /** Everything after the text has been taken apart. */
  function ReadCredential(codec: Codec, header: Bytes, payload: Bytes, disclosures: seq<Bytes>)
    : Result<ParsedCredential, Malformed>
  {
    var head :- DecodeJson(codec, header);
    var format :- ReadFormat(head);
    var claims :- DecodeJson(codec, payload);
    ReadClaims(codec, format, claims, disclosures)
  }

  function ReadClaims(codec: Codec, format: Bytes, claims: Json, disclosures: seq<Bytes>)
    : Result<ParsedCredential, Malformed>
  {
    var issuer :- RequiredText(claims, "iss");
    var credentialType :- RequiredText(claims, "vct");
    var expiresAt :- ReadExp(claims);
    var cnf := claims.Get("cnf");
    var jwk := if cnf.None? then None else cnf.value.Get("jwk");
    if jwk.None? then Err(NotKeyBound) else
    var agentDid :- DidFromJwk(codec, jwk.value);
    var disclosed :- ParseDisclosures(codec, disclosures);
    Ok(ParsedCredential(issuer, credentialType, format, agentDid, expiresAt, disclosed))
  }

  // --- The text ------------------------------------------------------------------------------

  /** `<issuer-jwt>~<disclosure>~…~`, as segments. */
  datatype Pieces = Pieces(header: Bytes, payload: Bytes, signature: Bytes, disclosures: seq<Bytes>)

  function TakeApart(raw: Bytes): Result<Pieces, Malformed> {
    var text := Trim(raw);
    if text == "" then Err(Empty) else
    var parts := Split(text, '~');
    var last := parts[|parts| - 1];
    if last != "" then Err(if |parts| > 1 && |Split(last, '.')| == 3 then IsPresentation else MissingTilde)
    else if |parts| < 2 then Err(MissingTilde) else
    var jwt := Split(parts[0], '.');
    if |jwt| != 3 then Err(NotThreeSegments)
    else Ok(Pieces(jwt[0], jwt[1], jwt[2], parts[1..|parts| - 1]))
  }

  function ParseSdJwt(codec: Codec, raw: Bytes): Result<ParsedCredential, Malformed> {
    ReadPieces(codec, TakeApart(raw))
  }

  function ReadPieces(codec: Codec, taken: Result<Pieces, Malformed>): Result<ParsedCredential, Malformed> {
    var p :- taken;
    ReadCredential(codec, p.header, p.payload, p.disclosures)
  }

  function IssuerJwt(p: Pieces): Bytes {
    p.header + Tagged('.', [p.payload, p.signature])
  }

  function Render(p: Pieces): Bytes {
    IssuerJwt(p) + Tagged('~', p.disclosures + [""])
  }

  lemma SplitStep(s: Bytes, c: char)
    ensures var at := IndexOf(s, c);
            if at == |s| then Split(s, c) == [s]
            else at < |s| && s[at] == c && Split(s, c) == [s[..at]] + Split(s[at + 1..], c)
  {
    hide IndexOf;
  }

  /** Splitting loses nothing but the separators. */
  lemma {:induction false} SplitJoins(s: Bytes, c: char)
    ensures Split(s, c)[0] + Tagged(c, Split(s, c)[1..]) == s
    decreases |s|
  {
    hide Split, IndexOf;
    SplitStep(s, c);
    var at := IndexOf(s, c);
    if at == |s| {
      assert [s][1..] == [];
      assert s + Tagged(c, []) == s;
    } else {
      var tail := s[at + 1..];
      SplitJoins(tail, c);
      var rest := Split(tail, c);
      assert ([s[..at]] + rest)[1..] == rest;
      TaggedJoins(c, s[..at], rest, tail);
      assert s == s[..at] + [c] + tail;
    }
  }

  lemma TaggedJoins(c: char, first: Bytes, rest: seq<Bytes>, tail: Bytes)
    requires rest != [] && rest[0] + Tagged(c, rest[1..]) == tail
    ensures first + Tagged(c, rest) == first + [c] + tail
  {
    assert Tagged(c, rest) == [c] + rest[0] + Tagged(c, rest[1..]);
    assert [c] + rest[0] + Tagged(c, rest[1..]) == [c] + (rest[0] + Tagged(c, rest[1..]));
    assert first + ([c] + tail) == first + [c] + tail;
  }

  /** Text that was taken apart is, trimmed, exactly the pieces put together again. */
  lemma {:induction false} TakenApartIsWhole(raw: Bytes)
    requires TakeApart(raw).Ok?
    ensures Render(TakeApart(raw).value) == Trim(raw)
  {
    var parts := Split(Trim(raw), '~');
    SplitJoins(Trim(raw), '~');
    SplitJoins(parts[0], '.');
    RenderJoins(Trim(raw), parts, Split(parts[0], '.'));
  }

  lemma {:induction false} RenderJoins(text: Bytes, parts: seq<Bytes>, jwt: seq<Bytes>)
    requires |parts| >= 2 && parts[|parts| - 1] == "" && |jwt| == 3
    requires parts[0] + Tagged('~', parts[1..]) == text && jwt[0] + Tagged('.', jwt[1..]) == parts[0]
    ensures Render(Pieces(jwt[0], jwt[1], jwt[2], parts[1..|parts| - 1])) == text
  {
    assert jwt[1..] == [jwt[1], jwt[2]];
    assert parts[1..] == parts[1..|parts| - 1] + [""];
  }

  /** Segments as RFC 7515, section 2, writes them. */
  predicate Base64Pieces(p: Pieces) {
    && Base64Text(p.header) && Base64Text(p.payload) && Base64Text(p.signature)
    && forall k :: 0 <= k < |p.disclosures| ==> Base64Text(p.disclosures[k])
  }

  lemma Base64IsPlain(s: Bytes)
    requires Base64Text(s)
    ensures '~' !in s && '.' !in s
  {
  }

  lemma {:induction false} IssuerJwtIs(p: Pieces)
    ensures IssuerJwt(p) == p.header + ['.'] + p.payload + ['.'] + p.signature
  {
    assert Tagged('.', [p.payload, p.signature]) == ['.'] + p.payload + Tagged('.', [p.signature]);
    assert Tagged('.', [p.signature]) == ['.'] + p.signature;
    var a, b := ['.'] + p.payload, ['.'] + p.signature;
    assert p.header + (a + b) == p.header + ['.'] + p.payload + ['.'] + p.signature;
  }

  lemma {:induction false} IssuerJwtSplits(p: Pieces)
    requires Base64Pieces(p)
    ensures '~' !in IssuerJwt(p) && Split(IssuerJwt(p), '.') == [p.header, p.payload, p.signature]
    ensures IssuerJwt(p) != "" && ' ' < IssuerJwt(p)[0] < '~'
  {
    Base64IsPlain(p.header);
    Base64IsPlain(p.payload);
    Base64IsPlain(p.signature);
    SplitTagged('.', p.header, [p.payload, p.signature]);
    IssuerJwtIs(p);
    assert IssuerJwt(p)[0] == if p.header == "" then '.' else p.header[0];
  }

  lemma {:induction false} WhiteStepOfLonger(a: Bytes, b: Bytes)
    requires a != "" && ' ' < a[0] <= '~'
    ensures WhiteStep(a + b) == 0
  {
    assert (a + b)[0] == a[0];
  }

  /** Whatever follows the pieces decides alone how the text is read. */
  lemma {:induction false} SplitBehindPieces(p: Pieces, last: Bytes)
    requires Base64Pieces(p) && '~' !in last
    ensures Split(IssuerJwt(p) + Tagged('~', p.disclosures + [last]), '~') == [IssuerJwt(p)] + p.disclosures + [last]
    ensures WhiteStep(IssuerJwt(p) + Tagged('~', p.disclosures + [last])) == 0
  {
    IssuerJwtSplits(p);
    forall k | 0 <= k < |p.disclosures| ensures '~' !in p.disclosures[k] {
      Base64IsPlain(p.disclosures[k]);
    }
    SplitTagged('~', IssuerJwt(p), p.disclosures + [last]);
    assert [IssuerJwt(p)] + (p.disclosures + [last]) == [IssuerJwt(p)] + p.disclosures + [last];
    WhiteStepOfLonger(IssuerJwt(p), Tagged('~', p.disclosures + [last]));
  }

  lemma {:induction false} EndsIn(a: Bytes, parts: seq<Bytes>, last: Bytes)
    ensures a + Tagged('~', parts + [last]) == a + Tagged('~', parts) + ['~'] + last
  {
    TaggedAppend('~', parts, last);
  }

  /** Rendering and taking apart again: every issued credential is read as its own segments. */
  lemma {:induction false} TakeApartRendered(p: Pieces)
    requires Base64Pieces(p)
    ensures TakeApart(Render(p)) == Ok(p)
  {
    var text := Render(p);
    SplitBehindPieces(p, "");
    EndsIn(IssuerJwt(p), p.disclosures, "");
    assert text[|text| - 1] == '~';
    EndsVisibly(text);
    NothingToTrim(text);
    var parts := [IssuerJwt(p)] + p.disclosures + [""];
    assert parts[1..|parts| - 1] == p.disclosures;
    IssuerJwtSplits(p);
  }

  /** With anything but nothing behind the last tilde it is refused: as a presentation when that is
      shaped like a key-binding JWT, as cut off otherwise. */
  lemma {:induction false} PresentedOrCutOff(codec: Codec, p: Pieces, last: Bytes)
    requires Base64Pieces(p) && last != "" && '~' !in last && ' ' < last[|last| - 1] < '~'
    ensures ParseSdJwt(codec, IssuerJwt(p) + Tagged('~', p.disclosures + [last]))
            == Err(if |Split(last, '.')| == 3 then IsPresentation else MissingTilde)
  {
    var text := IssuerJwt(p) + Tagged('~', p.disclosures + [last]);
    SplitBehindPieces(p, last);
    EndsIn(IssuerJwt(p), p.disclosures, last);
    assert text[|text| - 1] == last[|last| - 1];
    EndsVisibly(text);
    NothingToTrim(text);
    assert TakeApart(text) == Err(if |Split(last, '.')| == 3 then IsPresentation else MissingTilde);
  }

  // --- Import --------------------------------------------------------------------------------

  function Lift(parsed: ParsedCredential, id: Bytes, raw: Bytes, now: int): CredentialRecord {
    CredentialRecord(id, parsed.agentDid, parsed.issuer, parsed.credentialType, parsed.format, Trim(raw), now,
                     parsed.expiresAt)
  }

  /** Stores the text verbatim, but for the white space around it, under a fresh id. */
  method Import(codec: Codec, vault: CredentialVault.SqlVault, raw: Bytes, id: Bytes, now: int)
    returns (r: Result<CredentialRecord, Malformed>)
    modifies vault
    ensures var parsed := ParseSdJwt(codec, raw);
            if parsed.Err? then r == Err(parsed.error) && vault.rows == old(vault.rows)
            else r == Ok(Lift(parsed.value, id, raw, now)) && vault.rows == old(vault.rows)[id := r.value]
  {
    var parsed :- ParseSdJwt(codec, raw);
    var record := Lift(parsed, id, raw, now);
    vault.Put(record);
    return Ok(record);
  }

  datatype Op = ImportText(raw: Bytes, id: Bytes, now: int) | DeleteRow(id: Bytes)

  function RowsAfter(codec: Codec, ops: seq<Op>): Contents {
    if ops == [] then map[] else
    var before := RowsAfter(codec, ops[..|ops| - 1]);
    match ops[|ops| - 1]
    case ImportText(raw, id, now) =>
      var parsed := ParseSdJwt(codec, raw);
      if parsed.Err? then before else before[id := Lift(parsed.value, id, raw, now)]
    case DeleteRow(id) => before - {id}
  }

  /** The columns a parsed credential is lifted into. */
  predicate SameColumns(r: CredentialRecord, parsed: Result<ParsedCredential, Malformed>) {
    && parsed.Ok? && r.agentDid == parsed.value.agentDid && r.issuer == parsed.value.issuer
    && r.credentialType == parsed.value.credentialType && r.format == parsed.value.format
    && r.expiresAt == parsed.value.expiresAt
  }

  /** Reading the stored text again gives the stored columns. */
  predicate ColumnsMatch(codec: Codec, r: CredentialRecord) {
    SameColumns(r, ParseSdJwt(codec, r.raw))
  }

  lemma {:induction false} LiftedMatches(codec: Codec, raw: Bytes, id: Bytes, now: int)
    requires ParseSdJwt(codec, raw).Ok?
    ensures ColumnsMatch(codec, Lift(ParseSdJwt(codec, raw).value, id, raw, now))
  {
    TrimTrimmed(raw);
    assert TakeApart(Trim(raw)) == TakeApart(raw);
  }

  lemma {:induction false} EveryRowMatches(codec: Codec, ops: seq<Op>)
    ensures KeyedById(RowsAfter(codec, ops))
    ensures forall id :: id in RowsAfter(codec, ops) ==> ColumnsMatch(codec, RowsAfter(codec, ops)[id])
    decreases |ops|
  {
    if ops != [] {
      EveryRowMatches(codec, ops[..|ops| - 1]);
      match ops[|ops| - 1]
      case ImportText(raw, id, now) =>
        if ParseSdJwt(codec, raw).Ok? {
          LiftedMatches(codec, raw, id, now);
        }
      case DeleteRow(_) =>
    }
  }

  // --- Queries -------------------------------------------------------------------------------

  /** The issuer's claims, as the credential's own text carries them. */
  function Claims(codec: Codec, raw: Bytes): Json {
    ClaimsOf(codec, TakeApart(raw))
  }

  function ClaimsOf(codec: Codec, p: Result<Pieces, Malformed>): Json {
    if p.Err? then Null else
    var claims := DecodeJson(codec, p.value.payload);
    if claims.Err? then Null else claims.value
  }

  /** The `exp` claim, unrounded. */
  function ExpClaim(claims: Json): Option<Number> {
    var exp := claims.Get("exp");
    if exp.Some? && exp.value.Num? then Some(exp.value.number) else None
  }

  /** What the credential says in full: bound to this agent, from this issuer, of this type, and
      with a whole second left before its exact expiry. */
  predicate SaysItApplies(codec: Codec, raw: Bytes, agentDid: Bytes, issuer: Bytes, credentialType: Bytes, now: int) {
    Says(ParseSdJwt(codec, raw), Claims(codec, raw), agentDid, issuer, credentialType, now)
  }

  predicate Says(parsed: Result<ParsedCredential, Malformed>, claims: Json, agentDid: Bytes, issuer: Bytes,
                 credentialType: Bytes, now: int) {
    && parsed.Ok? && parsed.value.agentDid == agentDid
    && claims.GetText("iss") == Some(issuer) && claims.GetText("vct") == Some(credentialType)
    && (ExpClaim(claims).None? || ExpClaim(claims).value.Exact() >= (now + 1) as real)
  }

  /** Flooring and saturating an expiry: it lies after a whole second exactly when the exact expiry
      is at least a second later. */
  lemma {:induction false} SecondsAfter(exp: Number, now: int)
    requires I64_MIN <= now < I64_MAX
    ensures exp.Seconds() > now <==> exp.Exact() >= (now + 1) as real
  {
    if exp.Float? {
      assert exp.x.Floor as real <= exp.x < (exp.x.Floor + 1) as real;
    }
  }

  /** The claims a parsed credential was lifted from. */
  predicate LiftedFrom(parsed: ParsedCredential, claims: Json) {
    && parsed.expiresAt == (if ExpClaim(claims).None? then None else Some(ExpClaim(claims).value.Seconds()))
    && claims.GetText("iss") == Some(parsed.issuer) && claims.GetText("vct") == Some(parsed.credentialType)
  }

  lemma {:induction false} ReadClaimsLifts(codec: Codec, format: Bytes, claims: Json, disclosures: seq<Bytes>)
    requires ReadClaims(codec, format, claims, disclosures).Ok?
    ensures LiftedFrom(ReadClaims(codec, format, claims, disclosures).value, claims)
  {
  }

  lemma {:induction false} PiecesLift(codec: Codec, taken: Result<Pieces, Malformed>)
    requires ReadPieces(codec, taken).Ok?
    ensures LiftedFrom(ReadPieces(codec, taken).value, ClaimsOf(codec, taken))
  {
    var p := taken.value;
    var format := ReadFormat(DecodeJson(codec, p.header).value).value;
    ReadClaimsLifts(codec, format, DecodeJson(codec, p.payload).value, p.disclosures);
  }

  lemma {:induction false} ColumnsSay(r: CredentialRecord, parsed: Result<ParsedCredential, Malformed>, claims: Json,
                                      agentDid: Bytes, issuer: Bytes, credentialType: Bytes, now: int)
    requires SameColumns(r, parsed) && LiftedFrom(parsed.value, claims)
    requires I64_MIN <= now < I64_MAX
    ensures Applies(r, agentDid, issuer, credentialType, now)
            <==> Says(parsed, claims, agentDid, issuer, credentialType, now)
  {
    var exp := ExpClaim(claims);
    if exp.Some? {
      SecondsAfter(exp.value, now);
    }
  }

  /** Whatever was imported and deleted before, the columns select exactly the credentials whose own
      text, read again in full, says they apply. */
  lemma {:induction false} ColumnsFindWhatTextSays(codec: Codec, ops: seq<Op>, agentDid: Bytes, issuer: Bytes,
                                                   credentialType: Bytes, now: int)
    requires I64_MIN <= now < I64_MAX
    ensures var rows := RowsAfter(codec, ops);
            Applicable(rows, agentDid, issuer, credentialType, now)
            == map id | id in rows && SaysItApplies(codec, rows[id].raw, agentDid, issuer, credentialType, now)
                   :: rows[id]
  {
    EveryRowMatches(codec, ops);
    var rows := RowsAfter(codec, ops);
    forall id | id in rows
      ensures Applies(rows[id], agentDid, issuer, credentialType, now)
              <==> SaysItApplies(codec, rows[id].raw, agentDid, issuer, credentialType, now)
    {
      RowSays(codec, rows[id], agentDid, issuer, credentialType, now);
    }
  }

  lemma {:induction false} RowSays(codec: Codec, r: CredentialRecord, agentDid: Bytes, issuer: Bytes,
                                   credentialType: Bytes, now: int)
    requires ColumnsMatch(codec, r) && I64_MIN <= now < I64_MAX
    ensures Applies(r, agentDid, issuer, credentialType, now)
            <==> SaysItApplies(codec, r.raw, agentDid, issuer, credentialType, now)
  {
    PiecesLift(codec, TakeApart(r.raw));
    ColumnsSay(r, ParseSdJwt(codec, r.raw), Claims(codec, r.raw), agentDid, issuer, credentialType, now);
  }

  lemma {:induction false} AppliesIsUnexpired(r: CredentialRecord, parsed: ParsedCredential, claims: Json, now: int)
    requires r.expiresAt == parsed.expiresAt && LiftedFrom(parsed, claims)
    requires I64_MIN <= now <= I64_MAX && (r.expiresAt.None? || r.expiresAt.value > now)
    ensures ExpClaim(claims).Some? ==> ExpClaim(claims).value.Exact() > now as real
  {
    var exp := ExpClaim(claims);
    if exp.Some? {
      assert now < I64_MAX;
      SecondsAfter(exp.value, now);
    }
  }

  /** At no time, the last representable second included, is a credential found that has expired
      (RFC 7519, section 4.1.4). */
  lemma {:induction false} FoundHasNotExpired(codec: Codec, ops: seq<Op>, id: Bytes, agentDid: Bytes, issuer: Bytes,
                                              credentialType: Bytes, now: int)
    requires I64_MIN <= now <= I64_MAX
    requires id in Applicable(RowsAfter(codec, ops), agentDid, issuer, credentialType, now)
    ensures var exp := ExpClaim(Claims(codec, RowsAfter(codec, ops)[id].raw));
            exp.Some? ==> exp.value.Exact() > now as real
  {
    EveryRowMatches(codec, ops);
    var r := RowsAfter(codec, ops)[id];
    PiecesLift(codec, TakeApart(r.raw));
    AppliesIsUnexpired(r, ParseSdJwt(codec, r.raw).value, Claims(codec, r.raw), now);
  }
}
