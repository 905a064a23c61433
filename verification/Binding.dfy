/**
 Human-to-agent binding certificates: `SHADI-AGENT-BINDING/1` and five lines (human DID, agent
 DID, agent name, expiry, signature), carried alone or in front of a larger message.
 */
module Binding {
  import opened Wrappers
  import opened Text
  import opened Identity

  const MAGIC: Bytes := "SHADI-AGENT-BINDING/1"
  const DOMAIN: Bytes := "SHADI-AGENT-BINDING/1"
  const BINDING_MAX: nat := 4096
  const LINE_MAX: nat := 1024

  datatype VerifiedBinding = VerifiedBinding(humanDid: Bytes, agentDid: Bytes, agentName: Bytes, notAfter: nat)

  predicate LooksLikeBinding(bytes: Bytes) {
    StartsWith(bytes, MAGIC) && |bytes| > |MAGIC| && bytes[|MAGIC|] == '\n'
  }

  /** The bytes the human signs. */
  function Canonical(b: VerifiedBinding): Bytes {
    DOMAIN + Tagged('\0', [b.humanDid, b.agentDid, b.agentName, Decimal(b.notAfter)])
  }

  function Fields(b: VerifiedBinding, sig: Bytes): seq<Bytes> {
    [b.humanDid, b.agentDid, b.agentName, Decimal(b.notAfter), sig]
  }

  /** The certificate format, as one expression. */
  function Certificate(b: VerifiedBinding, sig: Bytes): Bytes {
    MAGIC + Tagged('\n', Fields(b, sig))
  }

  // --- Issuing -------------------------------------------------------------------------------

  function CheckLine(line: Bytes): Result<(), IdentityError> {
    if line == "" then Err(EmptyField)
    else if '\n' in line then Err(NewlineInField)
    else if |line| > LINE_MAX then Err(FieldTooLong)
    else Ok(())
  }

  function Issue(suite: Suite, human: AgentIdentity, agentDid: Bytes, agentName: Bytes, notAfter: nat)
    : Result<Bytes, IdentityError>
  {
    var _ :- ParseDidKey(suite, agentDid);
    var _ :- CheckLine(agentName);
    var _ :- CheckLine(agentDid);
    var b := VerifiedBinding(human.did, agentDid, agentName, notAfter);
    Ok(Certificate(b, suite.base64Encode(human.sign(Canonical(b)))))
  }

  /** The loop that pushes a newline and a line, for each line. */
  method AppendLines(start: Bytes, lines: seq<Bytes>) returns (out: Bytes)
    ensures out == start + Tagged('\n', lines)
  {
    out := start;
    for i := 0 to |lines|
      invariant 0 <= i <= |lines|
      invariant out + Tagged('\n', lines[i..]) == start + Tagged('\n', lines)
    {
      ghost var before := out;
      ghost var rest := Tagged('\n', lines[i + 1..]);
      assert lines[i..][1..] == lines[i + 1..];
      out := out + "\n";
      out := out + lines[i];
      assert before + ("\n" + lines[i] + rest) == out + rest;
    }
  }

  method IssueBinding(suite: Suite, human: AgentIdentity, agentDid: Bytes, agentName: Bytes, notAfter: nat)
    returns (r: Result<Bytes, IdentityError>)
    ensures r == Issue(suite, human, agentDid, agentName, notAfter)
  {
    var _ :- ParseDidKey(suite, agentDid);
    var _ :- CheckLine(agentName);
    var _ :- CheckLine(agentDid);
    var b := VerifiedBinding(human.did, agentDid, agentName, notAfter);
    var sig := suite.base64Encode(human.sign(Canonical(b)));
    var out := AppendLines(MAGIC, Fields(b, sig));
    return Ok(out);
  }

  // --- Verifying -----------------------------------------------------------------------------

  /** The next `n` fields of a certificate after the ones already read. */
  function ReadFields(lines: seq<Bytes>, read: seq<Bytes>, n: nat): (r: Result<seq<Bytes>, IdentityError>)
    ensures r.Ok? ==> |r.value| == |read| + n
    decreases n
  {
    if n == 0 then Ok(read)
    else if lines == [] then Err(MissingField)
    else if |lines[0]| > LINE_MAX then Err(LineTooLong)
    else if !Utf8(lines[0]) then Err(NotUtf8)
    else ReadFields(lines[1..], read + [lines[0]], n - 1)
  }

  function Verify(suite: Suite, certificate: Bytes, now: nat): Result<VerifiedBinding, IdentityError> {
    if |certificate| > BINDING_MAX then Err(CertificateTooBig) else
    var lines := Split(certificate, '\n');
    if lines[0] != MAGIC then Err(BadMagic) else
    var fields :- ReadFields(lines[1..], [], 5);
    CheckFields(suite, fields, now)
  }

  function CheckFields(suite: Suite, fields: seq<Bytes>, now: nat): Result<VerifiedBinding, IdentityError>
    requires |fields| == 5
  {
    var notAfter := ParseUnsigned(fields[3], U64_LIMIT);
    if notAfter.None? then Err(BadExpiry) else
    var b := VerifiedBinding(fields[0], fields[1], fields[2], notAfter.value);
    var key :- ParseDidKey(suite, b.humanDid);
    var sig := suite.base64Decode(fields[4]);
    if sig.None? then Err(BadEncoding)
    else if |sig.value| != 64 then Err(BadSignatureLength)
    else if !suite.verify(key, Canonical(b), sig.value) then Err(BadSignature)
    else if now > b.notAfter then Err(Lapsed)
    else
      var _ :- ParseDidKey(suite, b.agentDid);
      Ok(b)
  }

  /** Fields are pulled from an iterator that advances. */
  method VerifyBinding(suite: Suite, certificate: Bytes, now: nat) returns (r: Result<VerifiedBinding, IdentityError>)
    ensures r == Verify(suite, certificate, now)
  {
    if |certificate| > BINDING_MAX {
      return Err(CertificateTooBig);
    }
    var lines := Split(certificate, '\n');
    var magic := lines[0];
    lines := lines[1..];
    if magic != MAGIC {
      return Err(BadMagic);
    }
    ghost var all := lines;
    var fields: seq<Bytes> := [];
    for i := 0 to 5
      invariant 0 <= i <= 5 && |fields| == i
      invariant ReadFields(all, [], 5) == ReadFields(lines, fields, 5 - i)
    {
      if lines == [] {
        return Err(MissingField);
      }
      var raw := lines[0];
      if |raw| > LINE_MAX {
        return Err(LineTooLong);
      }
      if !Utf8(raw) {
        return Err(NotUtf8);
      }
      lines := lines[1..];
      fields := fields + [raw];
    }
    return CheckFields(suite, fields, now);
  }

  predicate LineFits(line: Bytes) {
    '\n' !in line && |line| <= LINE_MAX && Utf8(line)
  }

  lemma {:induction false} ReadAllFields(lines: seq<Bytes>, read: seq<Bytes>)
    requires forall k :: 0 <= k < |lines| ==> LineFits(lines[k])
    ensures ReadFields(lines, read, |lines|) == Ok(read + lines)
    decreases |lines|
  {
    if lines != [] {
      assert LineFits(lines[0]);
      ReadAllFields(lines[1..], read + [lines[0]]);
      assert read + [lines[0]] + lines[1..] == read + lines;
    } else {
      assert read + lines == read;
    }
  }

  /** A certificate of lines that fit reads back as its five fields. */
  lemma {:induction false} VerifyReadsFields(suite: Suite, fields: seq<Bytes>, now: nat)
    requires |fields| == 5 && forall k :: 0 <= k < 5 ==> LineFits(fields[k])
    requires |MAGIC + Tagged('\n', fields)| <= BINDING_MAX
    ensures Verify(suite, MAGIC + Tagged('\n', fields), now) == CheckFields(suite, fields, now)
  {
    assert '\n' !in MAGIC;
    SplitTagged('\n', MAGIC, fields);
    assert ([MAGIC] + fields)[1..] == fields;
    ReadAllFields(fields, []);
    assert [] + fields == fields;
  }

  lemma {:induction false} DecimalFits(n: nat)
    requires n < U64_LIMIT
    ensures LineFits(Decimal(n)) && |Decimal(n)| <= 20
  {
    DecimalU64Length(n);
    assert forall k :: 0 <= k < |Decimal(n)| ==> IsDigit(Decimal(n)[k]);
    AsciiIsUtf8(Decimal(n));
  }

  /** A certificate is issued exactly for a parsing agent DID and a non-empty name that fits a line. */
  lemma {:induction false} IssueIff(suite: Suite, human: AgentIdentity, agentDid: Bytes, agentName: Bytes,
                                    notAfter: nat)
    requires suite.Lawful()
    ensures Issue(suite, human, agentDid, agentName, notAfter).Ok?
            <==> ParseDidKey(suite, agentDid).Ok? && agentName != "" && '\n' !in agentName && |agentName| <= LINE_MAX
  {
    if ParseDidKey(suite, agentDid).Ok? {
      ParsedDidIsPlain(suite, agentDid);
    }
  }

  /** The lines an issuer writes: all fit, and the whole stays under the cap. */
  lemma {:induction false} IssuedLinesFit(suite: Suite, human: AgentIdentity, agentDid: Bytes, agentName: Bytes,
                                          notAfter: nat, sig: Bytes)
    requires suite.Lawful() && ParseDidKey(suite, human.did).Ok? && ParseDidKey(suite, agentDid).Ok?
    requires Utf8(agentName) && '\n' !in agentName && |agentName| <= LINE_MAX && notAfter < U64_LIMIT
    requires |sig| == 86 && '\n' !in sig && Utf8(sig)
    ensures var b := VerifiedBinding(human.did, agentDid, agentName, notAfter);
            && (forall k :: 0 <= k < 5 ==> LineFits(Fields(b, sig)[k]))
            && |Certificate(b, sig)| <= BINDING_MAX
  {
    hide ParseDidKey, Utf8, Certificate, Suite.Lawful;
    ParsedDidIsPlain(suite, human.did);
    ParsedDidIsPlain(suite, agentDid);
    DecimalFits(notAfter);
    CertificateSize(VerifiedBinding(human.did, agentDid, agentName, notAfter), sig);
  }

  /** Every issued certificate verifies to the fields it was issued for, up to and including its
      expiry, and never after; a name may hold any character but a newline. */
  lemma {:induction false} VerifyIssue(suite: Suite, human: AgentIdentity, agentDid: Bytes, agentName: Bytes,
                                       notAfter: nat, now: nat)
    requires suite.Lawful() && human.Genuine(suite) && Utf8(agentName) && notAfter < U64_LIMIT
    requires Issue(suite, human, agentDid, agentName, notAfter).Ok?
    ensures var cert := Issue(suite, human, agentDid, agentName, notAfter).value;
            Verify(suite, cert, now)
            == if now <= notAfter then Ok(VerifiedBinding(human.did, agentDid, agentName, notAfter)) else Err(Lapsed)
  {
    hide Verify, CheckFields, ParseDidKey, Canonical, Utf8, LineFits;
    var b := VerifiedBinding(human.did, agentDid, agentName, notAfter);
    var raw := human.sign(Canonical(b));
    var sig := suite.base64Encode(raw);
    SignatureTextIsPlain(suite, raw);
    IssuedLinesFit(suite, human, agentDid, agentName, notAfter, sig);
    VerifyReadsFields(suite, Fields(b, sig), now);
    IssuedFieldsCheck(suite, human, b, now);
  }

  lemma {:induction false} IssuedFieldsCheck(suite: Suite, human: AgentIdentity, b: VerifiedBinding, now: nat)
    requires suite.Lawful() && human.Genuine(suite) && b.notAfter < U64_LIMIT
    requires b.humanDid == human.did && ParseDidKey(suite, b.agentDid).Ok?
    ensures CheckFields(suite, Fields(b, suite.base64Encode(human.sign(Canonical(b)))), now)
            == if now <= b.notAfter then Ok(b) else Err(Lapsed)
  {
    ParseDecimal(b.notAfter, U64_LIMIT);
    var raw := human.sign(Canonical(b));
    assert suite.base64Decode(suite.base64Encode(raw)) == Some(raw) && |raw| == 64;
    hide Canonical, ParseUnsigned, Decimal;
  }

  lemma {:induction false} CertificateSize(b: VerifiedBinding, sig: Bytes)
    ensures |Certificate(b, sig)|
            == |MAGIC| + |b.humanDid| + |b.agentDid| + |b.agentName| + |Decimal(b.notAfter)| + |sig| + 5
  {
    var f := Fields(b, sig);
    TaggedLength('\n', f);
    assert TotalLength(f[4..]) == |sig|;
    assert TotalLength(f[3..]) == |Decimal(b.notAfter)| + |sig|;
    assert TotalLength(f[2..]) == |b.agentName| + |Decimal(b.notAfter)| + |sig|;
    assert TotalLength(f[1..]) == |b.agentDid| + |b.agentName| + |Decimal(b.notAfter)| + |sig|;
  }

  lemma {:induction false} CheckedFieldsAreAuthentic(suite: Suite, fields: seq<Bytes>, now: nat) returns (sig: Bytes)
    requires |fields| == 5 && CheckFields(suite, fields, now).Ok?
    ensures Authentic(suite, CheckFields(suite, fields, now).value, sig, now)
  {
    sig := suite.base64Decode(fields[4]).value;
  }

  /** `sig` is the named human's signature over exactly these fields, and they have not expired. */
  predicate Authentic(suite: Suite, b: VerifiedBinding, sig: Bytes, now: nat) {
    && now <= b.notAfter < U64_LIMIT
    && ParseDidKey(suite, b.humanDid).Ok? && ParseDidKey(suite, b.agentDid).Ok?
    && |sig| == 64 && suite.verify(ParseDidKey(suite, b.humanDid).value, Canonical(b), sig)
  }

  /** Whatever verifies is authentic: unexpired, and signed by the human it names. */
  lemma {:induction false} VerifyIsAuthentic(suite: Suite, certificate: Bytes, now: nat) returns (sig: Bytes)
    requires Verify(suite, certificate, now).Ok?
    ensures Authentic(suite, Verify(suite, certificate, now).value, sig, now)
  {
    sig := CheckedFieldsAreAuthentic(suite, ReadFields(Split(certificate, '\n')[1..], [], 5).value, now);
  }

  // --- Splitting -----------------------------------------------------------------------------

  /** How many newlines `s` holds: an independent reading of what `split_binding` looks for. */
  function Newlines(s: Bytes): nat {
    if s == "" then 0 else (if s[0] == '\n' then 1 else 0) + Newlines(s[1..])
  }

  /** Where the certificate ends, `n` lines after the newline at `end`. */
  function CertificateEnd(bytes: Bytes, end: nat, n: nat): (r: Result<nat, IdentityError>)
    requires end < |bytes|
    ensures r.Ok? ==> end <= r.value < |bytes|
    decreases n
  {
    if n == 0 then Ok(end) else
    var rel := IndexOf(bytes[end + 1..], '\n');
    if rel == |bytes| - (end + 1) then Err(Truncated)
    else if end + 1 + rel > BINDING_MAX then Err(CertificateTooBig)
    else CertificateEnd(bytes, end + 1 + rel, n - 1)
  }

  function SplitBinding(bytes: Bytes): Result<(Bytes, Bytes), IdentityError> {
    if !LooksLikeBinding(bytes) then Err(BadMagic) else
    var end :- CertificateEnd(bytes, |MAGIC|, 5);
    Ok((bytes[..end], bytes[end + 1..]))
  }

  /** The loop that moves `end`; its slices are always in bounds. */
  method FindCertificateEnd(bytes: Bytes, start: nat, lines: nat) returns (r: Result<nat, IdentityError>)
    requires start < |bytes|
    ensures r == CertificateEnd(bytes, start, lines)
  {
    var end: nat := start;
    for i := 0 to lines
      invariant end < |bytes|
      invariant CertificateEnd(bytes, start, lines) == CertificateEnd(bytes, end, lines - i)
    {
      var rest := bytes[end + 1..];
      var rel := IndexOf(rest, '\n');
      if rel == |rest| {
        return Err(Truncated);
      }
      end := end + 1 + rel;
      if end > BINDING_MAX {
        return Err(CertificateTooBig);
      }
    }
    return Ok(end);
  }

  method SplitBindingLoop(bytes: Bytes) returns (r: Result<(Bytes, Bytes), IdentityError>)
    ensures r == SplitBinding(bytes)
  {
    if !LooksLikeBinding(bytes) {
      return Err(BadMagic);
    }
    var end :- FindCertificateEnd(bytes, |MAGIC|, 5);
    hide CertificateEnd;
    return Ok((bytes[..end], bytes[end + 1..]));
  }

  lemma {:induction false} NewlinesAppend(a: Bytes, b: Bytes)
    ensures Newlines(a + b) == Newlines(a) + Newlines(b)
  {
    if a == "" {
      assert a + b == b;
    } else {
      assert (a + b)[1..] == a[1..] + b;
      NewlinesAppend(a[1..], b);
    }
  }

  lemma {:induction false} NoNewlines(s: Bytes)
    ensures Newlines(s) == 0 <==> '\n' !in s
  {
    if s != "" {
      NoNewlines(s[1..]);
      assert s == [s[0]] + s[1..];
    }
  }

  /** Between a newline at `end` and a newline at `k` lie the first line and the newlines after it. */
  lemma {:induction false} NewlinesAcrossLine(bytes: Bytes, end: nat, k: nat)
    requires end < k < |bytes| && bytes[end] == '\n' && bytes[k] == '\n'
    ensures var next := end + 1 + IndexOf(bytes[end + 1..], '\n');
            end < next <= k && bytes[next] == '\n' && Newlines(bytes[end..k]) == 1 + Newlines(bytes[next..k])
  {
    var rest := bytes[end + 1..];
    var rel := IndexOf(rest, '\n');
    var next := end + 1 + rel;
    assert rest[k - end - 1] == '\n';
    assert forall i :: 0 <= i < |rest| ==> rest[i] == bytes[end + 1 + i];
    assert bytes[end..k] == "\n" + (rest[..rel] + bytes[next..k]);
    assert (bytes[end..k])[1..] == rest[..rel] + bytes[next..k];
    NoNewlines(rest[..rel]);
    NewlinesAppend(rest[..rel], bytes[next..k]);
  }

  /** Reading one line on: the end is `n - 1` lines after the next newline within the cap. */
  lemma {:induction false} CertificateEndStep(bytes: Bytes, end: nat, n: nat)
    requires end < |bytes| && n > 0
    ensures var next := end + 1 + IndexOf(bytes[end + 1..], '\n');
            && end < next <= |bytes| && (next < |bytes| ==> bytes[next] == '\n')
            && (next == |bytes| ==> CertificateEnd(bytes, end, n) == Err(Truncated))
            && (BINDING_MAX < next < |bytes| ==> CertificateEnd(bytes, end, n) == Err(CertificateTooBig))
            && (next < |bytes| && next <= BINDING_MAX
                ==> CertificateEnd(bytes, end, n) == CertificateEnd(bytes, next, n - 1))
  {
    var rest := bytes[end + 1..];
    var rel := IndexOf(rest, '\n');
    assert rel < |rest| ==> bytes[end + 1 + rel] == rest[rel];
  }

  /** `k` is a newline within the cap with `n` newlines between `end` and it. */
  predicate EndsAt(bytes: Bytes, end: nat, n: nat, k: nat) {
    end <= k < |bytes| && k <= BINDING_MAX && bytes[k] == '\n' && Newlines(bytes[end..k]) == n
  }

  lemma {:induction false} EndsAtStep(bytes: Bytes, end: nat, n: nat, k: nat)
    requires end < |bytes| && bytes[end] == '\n' && n > 0
    ensures var next := end + 1 + IndexOf(bytes[end + 1..], '\n');
            EndsAt(bytes, end, n, k) <==> next < |bytes| && EndsAt(bytes, next, n - 1, k)
  {
    assert bytes[end..end] == "";
    if end < k < |bytes| && bytes[k] == '\n' {
      NewlinesAcrossLine(bytes, end, k);
    }
  }

  lemma EndsWithin(bytes: Bytes, end: nat, n: nat, k: nat)
    ensures EndsAt(bytes, end, n, k) ==> end <= k < |bytes| && end <= BINDING_MAX
  {
    hide Newlines;
  }

  /** `k` ends the certificate exactly when it is such a newline. */
  lemma {:induction false} CertificateEndExact(bytes: Bytes, end: nat, n: nat, k: nat)
    requires end < |bytes| && bytes[end] == '\n' && end <= BINDING_MAX
    ensures CertificateEnd(bytes, end, n) == Ok(k) <==> EndsAt(bytes, end, n, k)
    decreases n
  {
    hide IndexOf, Newlines, EndsAt;
    if n == 0 {
      ZeroNewlines(bytes, end, k);
    } else {
      CertificateEndStep(bytes, end, n);
      EndsAtStep(bytes, end, n, k);
      var next := end + 1 + IndexOf(bytes[end + 1..], '\n');
      if next < |bytes| && next <= BINDING_MAX {
        CertificateEndExact(bytes, next, n - 1, k);
      } else if next < |bytes| {
        EndsWithin(bytes, next, n - 1, k);
      }
    }
  }

  /** No newlines in between means no way to go: the newline is at `end` itself. */
  lemma {:induction false} ZeroNewlines(bytes: Bytes, end: nat, k: nat)
    requires end < |bytes| && bytes[end] == '\n' && end <= BINDING_MAX
    ensures EndsAt(bytes, end, 0, k) <==> k == end
  {
    assert bytes[end..end] == "";
  }

  lemma {:induction false} NewlinesBehind(magic: Bytes, bytes: Bytes, k: nat)
    requires '\n' !in magic && |magic| <= k <= |bytes| && bytes[..|magic|] == magic
    ensures Newlines(bytes[..k]) == Newlines(bytes[|magic|..k])
  {
    NoNewlines(magic);
    assert bytes[..k] == magic + bytes[|magic|..k];
    NewlinesAppend(magic, bytes[|magic|..k]);
  }

  lemma {:induction false} LooksLikeBindingPrefix(bytes: Bytes, k: nat)
    requires |MAGIC| < k <= |bytes|
    ensures LooksLikeBinding(bytes[..k]) <==> LooksLikeBinding(bytes)
  {
    assert bytes[..k][..|MAGIC|] == bytes[..|MAGIC|];
  }

  lemma {:induction false} SplitBindingRejoins(bytes: Bytes)
    requires SplitBinding(bytes).Ok?
    ensures var (certificate, payload) := SplitBinding(bytes).value;
            && bytes == Line(certificate, payload) && LooksLikeBinding(certificate)
            && Newlines(certificate) == 5 && |certificate| <= BINDING_MAX
  {
    var start := |MAGIC|;
    assert bytes[..start] == MAGIC;
    var k := CertificateEnd(bytes, start, 5).value;
    CertificateEndExact(bytes, start, 5, k);
    assert start < k by {
      assert bytes[start..start] == "";
    }
    NewlinesBehind(MAGIC, bytes, k);
    LooksLikeBindingPrefix(bytes, k);
    LineAt(bytes, k);
  }

  lemma {:induction false} LineAt(bytes: Bytes, k: nat)
    requires k < |bytes| && bytes[k] == '\n'
    ensures bytes == Line(bytes[..k], bytes[k + 1..])
  {
  }

  lemma {:induction false} SplitBindingOfLine(certificate: Bytes, payload: Bytes)
    requires LooksLikeBinding(certificate) && Newlines(certificate) == 5 && |certificate| <= BINDING_MAX
    ensures SplitBinding(Line(certificate, payload)) == Ok((certificate, payload))
  {
    var bytes, k := Line(certificate, payload), |certificate|;
    assert bytes[..k] == certificate && bytes[k] == '\n' && bytes[k + 1..] == payload;
    LooksLikeBindingPrefix(bytes, k);
    NewlinesBehind(MAGIC, bytes, k);
    CertificateEndExact(bytes, |MAGIC|, 5, k);
  }

  /** Splitting is the exact inverse of putting a certificate in front of a payload: the parts
      rejoin to the input, and any payload behind five capped lines comes back whole. */
  lemma {:induction false} SplitBindingExact(bytes: Bytes, certificate: Bytes, payload: Bytes)
    ensures SplitBinding(bytes) == Ok((certificate, payload))
            <==> && bytes == Line(certificate, payload) && LooksLikeBinding(certificate)
                 && Newlines(certificate) == 5 && |certificate| <= BINDING_MAX
  {
    if SplitBinding(bytes).Ok? {
      SplitBindingRejoins(bytes);
    }
    if LooksLikeBinding(certificate) && Newlines(certificate) == 5 && |certificate| <= BINDING_MAX {
      SplitBindingOfLine(certificate, payload);
    }
  }

  /** A certificate takes five newlines, and one more parts it from what follows. */
  lemma {:induction false} SplitTakesSixNewlines(bytes: Bytes)
    ensures SplitBinding(bytes).Ok? ==> Newlines(bytes) >= 6
  {
    hide SplitBinding, LooksLikeBinding, Newlines, Line;
    if SplitBinding(bytes).Ok? {
      SplitBindingRejoins(bytes);
      NewlinesOfLine(SplitBinding(bytes).value.0, SplitBinding(bytes).value.1);
    }
  }

  lemma {:induction false} NewlinesOfLine(line: Bytes, rest: Bytes)
    ensures Newlines(Line(line, rest)) == Newlines(line) + 1 + Newlines(rest)
  {
    NewlinesAppend(line, "\n" + rest);
    assert ("\n" + rest)[1..] == rest;
    assert line + ("\n" + rest) == Line(line, rest);
  }

  lemma {:induction false} NewlinesOfTagged(parts: seq<Bytes>)
    requires forall k :: 0 <= k < |parts| ==> '\n' !in parts[k]
    ensures Newlines(Tagged('\n', parts)) == |parts|
  {
    if parts != [] {
      var rest := Tagged('\n', parts[1..]);
      NewlinesOfTagged(parts[1..]);
      NoNewlines(parts[0]);
      NewlinesAppend(parts[0], rest);
      assert Tagged('\n', parts) == ['\n'] + (parts[0] + rest);
      assert Tagged('\n', parts)[1..] == parts[0] + rest;
    }
  }

  /** An issued certificate looks like one and splits from any payload put behind it. */
  lemma {:induction false} SplitIssued(suite: Suite, human: AgentIdentity, agentDid: Bytes, agentName: Bytes,
                                       notAfter: nat, payload: Bytes)
    requires suite.Lawful() && human.Genuine(suite) && Utf8(agentName) && notAfter < U64_LIMIT
    requires Issue(suite, human, agentDid, agentName, notAfter).Ok?
    ensures var cert := Issue(suite, human, agentDid, agentName, notAfter).value;
            LooksLikeBinding(Line(cert, payload)) && SplitBinding(Line(cert, payload)) == Ok((cert, payload))
  {
    hide ParseDidKey, Canonical, Utf8, SplitBinding, LooksLikeBinding, Newlines, Line;
    var b := VerifiedBinding(human.did, agentDid, agentName, notAfter);
    var raw := human.sign(Canonical(b));
    var sig := suite.base64Encode(raw);
    var cert := Certificate(b, sig);
    SignatureTextIsPlain(suite, raw);
    IssuedLinesFit(suite, human, agentDid, agentName, notAfter, sig);
    MagicInFront(Fields(b, sig));
    SplitBindingExact(Line(cert, payload), cert, payload);
    LooksLikeBindingLine(cert, payload);
  }

  lemma LooksLikeBindingLine(cert: Bytes, payload: Bytes)
    requires LooksLikeBinding(cert)
    ensures LooksLikeBinding(Line(cert, payload))
  {
    LooksLikeBindingPrefix(Line(cert, payload), |cert|);
    assert Line(cert, payload)[..|cert|] == cert;
  }

  lemma {:induction false} MagicInFront(fields: seq<Bytes>)
    requires fields != [] && forall k :: 0 <= k < |fields| ==> '\n' !in fields[k]
    ensures LooksLikeBinding(MAGIC + Tagged('\n', fields)) && Newlines(MAGIC + Tagged('\n', fields)) == |fields|
  {
    var cert := MAGIC + Tagged('\n', fields);
    assert cert[..|MAGIC|] == MAGIC && cert[|MAGIC|] == '\n';
    assert '\n' !in MAGIC;
    NewlinesBehind(MAGIC, cert, |cert|);
    assert cert[..|cert|] == cert && cert[|MAGIC|..|cert|] == Tagged('\n', fields);
    NewlinesOfTagged(fields);
  }
}
