/**
 Grants: what an owner signs to add or remove one member of a channel, written as a JSON object,
 and how large that object gets.
 */
module Grant {
  import opened Wrappers
  import opened Text
  import opened Identity
  import opened Json

  const GRANT_MAX: nat := 4096
  const DOMAIN: Bytes := "SLIM-CHANNEL-GRANT/1"
  const FIELDS: set<Bytes> := {"channel", "invitee", "action", "role", "not_after", "nonce", "signature"}

  datatype GrantAction = Add | Delete {
    function AsText(): Bytes {
      match this case Add => "add" case Delete => "delete"
    }
  }

  function ParseAction(raw: Bytes): Result<GrantAction, IdentityError> {
    if raw == "add" then Ok(Add) else if raw == "delete" then Ok(Delete) else Err(BadAction)
  }

  datatype GrantRole = Member {
    function AsText(): Bytes {
      "member"
    }
  }

  function ParseRole(raw: Bytes): Result<GrantRole, IdentityError> {
    if raw == "member" then Ok(Member) else Err(BadRole)
  }

  datatype ChannelGrant = ChannelGrant(
    channel: Bytes, invitee: Bytes, action: GrantAction, role: GrantRole, notAfter: nat, nonce: Bytes)

  /** What a grant's signature covers. */
  function SignedBytes(channel: Bytes, invitee: Bytes, action: Bytes, role: Bytes, notAfter: nat, nonce: Bytes): Bytes {
    DOMAIN + Tagged('\0', [channel, invitee, action, role, Decimal(notAfter), nonce])
  }

  function Canonical(g: ChannelGrant): Bytes {
    SignedBytes(g.channel, g.invitee, g.action.AsText(), g.role.AsText(), g.notAfter, g.nonce)
  }

  function ToDocument(g: ChannelGrant, sig: Bytes): Document {
    map[
      "channel" := Text(g.channel),
      "invitee" := Text(g.invitee),
      "action" := Text(g.action.AsText()),
      "role" := Text(g.role.AsText()),
      "not_after" := Number(g.notAfter),
      "nonce" := Text(g.nonce),
      "signature" := Text(sig)
    ]
  }

  /** `nonce` is None when the random source fails. */
  function Issue(suite: Suite, json: JsonCodec, owner: AgentIdentity, channel: Bytes, invitee: Bytes,
                 action: GrantAction, role: GrantRole, notAfter: nat, nonce: Option<Bytes>)
    : Result<Bytes, IdentityError>
  {
    if !CheckName(channel) || !CheckName(invitee) then Err(BadName)
    else if nonce.None? then Err(KeyGen)
    else
      var g := ChannelGrant(channel, invitee, action, role, notAfter, nonce.value);
      Ok(json.encode(ToDocument(g, suite.base64StdEncode(owner.sign(Canonical(g))))))
  }

  function TextOf(document: Document, key: Bytes): Result<Bytes, IdentityError> {
    if key in document && document[key].Text? then Ok(document[key].text) else Err(MissingField)
  }

  function Verify(suite: Suite, json: JsonCodec, grant: Bytes, ownerDid: Bytes, now: nat)
    : Result<ChannelGrant, IdentityError>
  {
    if |grant| > GRANT_MAX then Err(GrantTooBig) else
    var key :- ParseDidKey(suite, ownerDid);
    var decoded := json.decode(grant);
    if decoded.None? then Err(BadEncoding) else VerifyDocument(suite, decoded.value, key, now)
  }

  function VerifyDocument(suite: Suite, document: Document, key: Key, now: nat): Result<ChannelGrant, IdentityError> {
    if !(document.Keys <= FIELDS) then Err(MissingField)
    else if "not_after" !in document || !document["not_after"].Number? || document["not_after"].number >= U64_LIMIT
    then Err(MissingField)
    else
      var notAfter := document["not_after"].number;
      var channel :- TextOf(document, "channel");
      var invitee :- TextOf(document, "invitee");
      var action :- TextOf(document, "action");
      var role :- TextOf(document, "role");
      var nonce :- TextOf(document, "nonce");
      var sigText :- TextOf(document, "signature");
      var sig := suite.base64StdDecode(sigText);
      if sig.None? then Err(BadEncoding)
      else if |sig.value| != 64 then Err(BadSignatureLength)
      else if !suite.verify(key, SignedBytes(channel, invitee, action, role, notAfter, nonce), sig.value)
      then Err(BadSignature)
      else if now > notAfter then Err(Lapsed)
      else if !CheckName(channel) || !CheckName(invitee) then Err(BadName)
      else
        var parsedAction :- ParseAction(action);
        var parsedRole :- ParseRole(role);
        Ok(ChannelGrant(channel, invitee, parsedAction, parsedRole, notAfter, nonce))
  }

  /** A grant is issued exactly for two well-formed SLIM names and a working random source. */
  lemma {:induction false} IssueIff(suite: Suite, json: JsonCodec, owner: AgentIdentity, channel: Bytes, invitee: Bytes,
                                    action: GrantAction, notAfter: nat, nonce: Option<Bytes>)
    ensures Issue(suite, json, owner, channel, invitee, action, Member, notAfter, nonce).Ok?
            <==> CheckName(channel) && CheckName(invitee) && nonce.Some?
  {
  }

  /** How many bytes the document of a grant takes, with a signature of 64 bytes. */
  function GrantSize(g: ChannelGrant): nat {
    176 + Quoted(g.channel) + Quoted(g.invitee) + |g.action.AsText()| + |Decimal(g.notAfter)| + Quoted(g.nonce)
  }

  /** Three more entries of which nothing is known but their keys and values. */
  lemma {:induction false} ThreeMore(json: JsonCodec, d: Document, k1: Bytes, v1: Value, k2: Bytes, v2: Value,
                                     k3: Bytes, v3: Value)
    requires json.Lawful() && d != map[] && !v1.Other? && !v2.Other? && !v3.Other?
    requires k1 !in d && k2 !in d && k3 !in d && k1 != k2 && k1 != k3 && k2 != k3
    ensures |json.encode(d[k1 := v1][k2 := v2][k3 := v3])|
            == |json.encode(d)| + 3 + EntrySize(k1, v1) + EntrySize(k2, v2) + EntrySize(k3, v3)
  {
    json.Grows(d, k1, v1);
    json.Grows(d[k1 := v1], k2, v2);
    json.Grows(d[k1 := v1][k2 := v2], k3, v3);
    assert k1 in d[k1 := v1] && k2 in d[k1 := v1][k2 := v2];
  }

  lemma {:induction false} SevenEntries(json: JsonCodec, k: seq<Bytes>, v: seq<Value>)
    requires json.Lawful() && |k| == |v| == 7 && Distinct(k) && forall i :: 0 <= i < 7 ==> !v[i].Other?
    ensures |json.encode(Seven(k, v))| == SevenSize(k, v)
  {
    hide EntrySize, Quoted, ValueSize;
    var d0: Document := map[];
    var d1 := d0[k[0] := v[0]];
    var d4 := d1[k[1] := v[1]][k[2] := v[2]][k[3] := v[3]];
    OneEntry(json, k[0], v[0]);
    assert k[0] in d1;
    assert d1.Keys == {k[0]};
    ThreeMore(json, d1, k[1], v[1], k[2], v[2], k[3], v[3]);
    assert d4.Keys == {k[0], k[1], k[2], k[3]};
    ThreeMore(json, d4, k[4], v[4], k[5], v[5], k[6], v[6]);
  }

  lemma OneEntry(json: JsonCodec, k: Bytes, v: Value)
    requires json.Lawful() && !v.Other?
    ensures |json.encode(map[k := v])| == 2 + EntrySize(k, v)
  {
    var d: Document := map[];
    json.Grows(d, k, v);
    assert d[k := v] == map[k := v];
  }

  function Seven(k: seq<Bytes>, v: seq<Value>): Document
    requires |k| == |v| == 7
  {
    map[k[0] := v[0]][k[1] := v[1]][k[2] := v[2]][k[3] := v[3]][k[4] := v[4]][k[5] := v[5]][k[6] := v[6]]
  }

  function Names(): (k: seq<Bytes>)
    ensures |k| == 7
  {
    ["channel", "invitee", "action", "role", "not_after", "nonce", "signature"]
  }

  lemma NamesDiffer()
    ensures Distinct(Names())
  {
    var k := Names();
    assert |k[0]| == |k[1]| == 7 && |k[2]| == 6 && |k[3]| == 4 && |k[4]| == |k[6]| == 9 && |k[5]| == 5;
    assert k[0][0] == 'c' && k[1][0] == 'i' && k[4][0] == 'n' && k[6][0] == 's';
  }

  /** Without quotes, backslashes and control characters a text is quoted as it is. */
  lemma {:induction false} PlainSize(s: Bytes)
    requires forall k :: 0 <= k < |s| ==> EscapedSize(s[k]) == 1
    ensures Quoted(s) == |s| + 2
    decreases |s|
  {
    if s != "" {
      PlainSize(s[1..]);
    }
  }

  lemma NameSizes()
    ensures var k := Names();
            && Quoted(k[0]) == 9 && Quoted(k[1]) == 9 && Quoted(k[2]) == 8 && Quoted(k[3]) == 6
            && Quoted(k[4]) == 11 && Quoted(k[5]) == 7 && Quoted(k[6]) == 11
  {
    hide Quoted;
    var k := Names();
    PlainSize(k[0]);
    PlainSize(k[1]);
    PlainSize(k[2]);
    PlainSize(k[3]);
    PlainSize(k[4]);
    PlainSize(k[5]);
    PlainSize(k[6]);
  }

  function Values(g: ChannelGrant, sig: Bytes): seq<Value> {
    [Text(g.channel), Text(g.invitee), Text(g.action.AsText()), Text(g.role.AsText()), Number(g.notAfter),
     Text(g.nonce), Text(sig)]
  }

  lemma DocumentIsSeven(g: ChannelGrant, sig: Bytes)
    ensures ToDocument(g, sig) == Seven(Names(), Values(g, sig))
  {
  }

  function SevenSize(k: seq<Bytes>, v: seq<Value>): nat
    requires |k| == |v| == 7 && forall i :: 0 <= i < 7 ==> !v[i].Other?
  {
    8 + EntrySize(k[0], v[0]) + EntrySize(k[1], v[1]) + EntrySize(k[2], v[2]) + EntrySize(k[3], v[3])
      + EntrySize(k[4], v[4]) + EntrySize(k[5], v[5]) + EntrySize(k[6], v[6])
  }

  lemma {:induction false} SevenSizeIs(k: seq<Bytes>, g: ChannelGrant, sig: Bytes)
    requires |k| == 7 && Quoted(k[0]) == 9 && Quoted(k[1]) == 9 && Quoted(k[2]) == 8 && Quoted(k[3]) == 6
    requires Quoted(k[4]) == 11 && Quoted(k[5]) == 7 && Quoted(k[6]) == 11
    requires Base64StdText(sig) && |sig| == 88
    ensures SevenSize(k, Values(g, sig)) == GrantSize(g)
  {
    PlainSize(sig);
    PlainSize(g.action.AsText());
    PlainSize(g.role.AsText());
    hide Quoted, Decimal;
  }

  lemma {:induction false} DocumentSize(json: JsonCodec, g: ChannelGrant, sig: Bytes)
    requires json.Lawful() && Base64StdText(sig) && |sig| == 88
    ensures |json.encode(ToDocument(g, sig))| == GrantSize(g)
  {
    hide Names, Quoted, Distinct, ToDocument, Seven, SevenSize, GrantSize;
    DocumentIsSeven(g, sig);
    NamesDiffer();
    NameSizes();
    SevenSizeIs(Names(), g, sig);
    SevenEntries(json, Names(), Values(g, sig));
  }

  /** An issued grant verifies under its owner to exactly what was issued until it lapses, unless its
      fields take the document over the verifier's cap, which the issuer does not check. */
  lemma {:induction false} VerifyIssue(suite: Suite, json: JsonCodec, owner: AgentIdentity, channel: Bytes,
                                       invitee: Bytes,
                                       action: GrantAction, notAfter: nat, nonce: Option<Bytes>, now: nat)
    requires suite.Lawful() && json.Lawful() && owner.Genuine(suite) && notAfter < U64_LIMIT
    requires Issue(suite, json, owner, channel, invitee, action, Member, notAfter, nonce).Ok?
    ensures var grant := Issue(suite, json, owner, channel, invitee, action, Member, notAfter, nonce).value;
            var g := ChannelGrant(channel, invitee, action, Member, notAfter, nonce.value);
            Verify(suite, json, grant, owner.did, now)
            == if GrantSize(g) > GRANT_MAX then Err(GrantTooBig)
               else if now > notAfter then Err(Lapsed)
               else Ok(g)
  {
    var g := ChannelGrant(channel, invitee, action, Member, notAfter, nonce.value);
    var sig := suite.base64StdEncode(owner.sign(Canonical(g)));
    var document := ToDocument(g, sig);
    DocumentSize(json, g, sig);
    assert json.decode(json.encode(document)) == Some(document);
    DocumentReads(g, sig);
    DocumentVerifies(suite, owner, document, g, sig, now);
    hide ToDocument, GrantSize, CheckName, VerifyDocument;
  }

  /** What a verifier finds in the document. */
  predicate ReadsAs(document: Document, g: ChannelGrant, sig: Bytes) {
    && document.Keys == FIELDS && document["not_after"] == Number(g.notAfter)
    && TextOf(document, "channel") == Ok(g.channel) && TextOf(document, "invitee") == Ok(g.invitee)
    && TextOf(document, "action") == Ok(g.action.AsText()) && TextOf(document, "role") == Ok("member")
    && TextOf(document, "nonce") == Ok(g.nonce) && TextOf(document, "signature") == Ok(sig)
  }

  lemma DocumentReads(g: ChannelGrant, sig: Bytes)
    ensures ReadsAs(ToDocument(g, sig), g, sig)
  {
  }

  lemma {:induction false} DocumentVerifies(suite: Suite, owner: AgentIdentity, document: Document, g: ChannelGrant,
                                            sig: Bytes, now: nat)
    requires suite.Lawful() && owner.Genuine(suite) && g.notAfter < U64_LIMIT
    requires CheckName(g.channel) && CheckName(g.invitee)
    requires sig == suite.base64StdEncode(owner.sign(Canonical(g))) && ReadsAs(document, g, sig)
    ensures VerifyDocument(suite, document, ParseDidKey(suite, owner.did).value, now)
            == if now > g.notAfter then Err(Lapsed) else Ok(g)
  {
    hide CheckName;
    assert ParseAction(g.action.AsText()) == Ok(g.action) by {
      assert |"add"| == 3 && |"delete"| == 6;
    }
    assert "not_after" in FIELDS;
    var signed := owner.sign(Canonical(g));
    assert suite.base64StdDecode(sig) == Some(signed) && |signed| == 64;
    assert g.role.Member?;
  }

  /** `a/b/` and then `n` times `c`. */
  function LongName(n: nat): Bytes {
    "a" + Tagged('/', ["b", Repeated('c', n)])
  }

  function Repeated(c: char, n: nat): (s: Bytes)
    ensures |s| == n && forall k :: 0 <= k < n ==> s[k] == c
  {
    if n == 0 then "" else [c] + Repeated(c, n - 1)
  }

  lemma {:induction false} ThreeParts(a: Bytes, b: Bytes, c: Bytes)
    requires '/' !in a && '/' !in b && '/' !in c
    ensures Split(a + Tagged('/', [b, c]), '/') == [a, b, c]
  {
    SplitTagged('/', a, [b, c]);
  }

  lemma VisibleIsNamePart(p: Bytes)
    requires p != "" && Visible(p)
    ensures NamePart(p)
  {
    forall k | 0 <= k < |p| ensures WhiteStep(p[k..]) == 0 {
      assert p[k..][0] == p[k];
    }
  }

  lemma {:induction false} LongNameIsName(n: nat)
    requires n > 0
    ensures CheckName(LongName(n))
  {
    var last := Repeated('c', n);
    ThreeParts("a", "b", last);
    VisibleIsNamePart("a");
    VisibleIsNamePart("b");
    VisibleIsNamePart(last);
    hide NamePart, Split;
  }

  /** With such a channel a grant is issued and verifies under no clock, whatever else it says. */
  lemma {:induction false} LongGrantNeverVerifies(suite: Suite, json: JsonCodec, owner: AgentIdentity, invitee: Bytes,
                                                  action: GrantAction, notAfter: nat, nonce: Bytes, now: nat)
    requires suite.Lawful() && json.Lawful() && owner.Genuine(suite) && notAfter < U64_LIMIT && CheckName(invitee)
    ensures var name := LongName(GRANT_MAX);
            var issued := Issue(suite, json, owner, name, invitee, action, Member, notAfter, Some(nonce));
            issued.Ok? && Verify(suite, json, issued.value, owner.did, now) == Err(GrantTooBig)
  {
    LongNameIsName(GRANT_MAX);
    TaggedLength('/', ["b", Repeated('c', GRANT_MAX)]);
    QuotedIsLonger(LongName(GRANT_MAX));
    hide CheckName, LongName, Quoted;
    VerifyIssue(suite, json, owner, LongName(GRANT_MAX), invitee, action, notAfter, Some(nonce), now);
  }

  /** Whatever verifies carries the recorded owner's signature over exactly the fields returned. */
  lemma {:induction false} VerifyIsAuthentic(suite: Suite, json: JsonCodec, grant: Bytes, ownerDid: Bytes, now: nat)
    returns (sig: Bytes)
    requires Verify(suite, json, grant, ownerDid, now).Ok?
    ensures var g := Verify(suite, json, grant, ownerDid, now).value;
            && now <= g.notAfter < U64_LIMIT && CheckName(g.channel) && CheckName(g.invitee)
            && ParseDidKey(suite, ownerDid).Ok?
            && |sig| == 64 && suite.verify(ParseDidKey(suite, ownerDid).value, Canonical(g), sig)
  {
    var document := json.decode(grant).value;
    sig := suite.base64StdDecode(TextOf(document, "signature").value).value;
  }
}
