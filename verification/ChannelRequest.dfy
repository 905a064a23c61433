/** What an owner signs for a channel manager: that a channel be made, and that it be removed. */
module ChannelRequest {
  import opened Wrappers
  import opened Text
  import opened Identity
  import opened Grant
  import opened Json

  const CREATE_DOMAIN: Bytes := "SLIM-CHANNEL-CREATE/1"
  const DELETE_DOMAIN: Bytes := "SLIM-CHANNEL-DELETE/1"

  datatype ChannelCreation = ChannelCreation(
    audience: Bytes, channel: Bytes, mlsEnabled: bool, ttlSeconds: Option<nat>, ownerCallbackName: Option<Bytes>)

  predicate CheckAudience(audience: Bytes) {
    audience != "" && '\0' !in audience
  }

  function CheckCreation(c: ChannelCreation): Result<(), IdentityError> {
    if !CheckAudience(c.audience) then Err(BadAudience)
    else if !CheckName(c.channel) then Err(BadName)
    else if c.ownerCallbackName.Some? && !CheckName(c.ownerCallbackName.value) then Err(BadName)
    else if c.ttlSeconds == Some(0) then Err(BadTtl)
    else Ok(())
  }

  function CreateParts(c: ChannelCreation, ownerDid: Bytes, notAfter: nat, nonce: Bytes): seq<Bytes> {
    [
      c.audience,
      c.channel,
      ownerDid,
      if c.mlsEnabled then "true" else "false",
      if c.ttlSeconds.Some? then Decimal(c.ttlSeconds.value) else "",
      if c.ownerCallbackName.Some? then c.ownerCallbackName.value else "",
      Decimal(notAfter),
      nonce
    ]
  }

  function DeleteParts(audience: Bytes, channel: Bytes, notAfter: nat, nonce: Bytes): seq<Bytes> {
    [audience, channel, Decimal(notAfter), nonce]
  }

  /** What a channel manager reads back out of a create document. */
  predicate Describes(document: Document, c: ChannelCreation, ownerDid: Bytes, notAfter: nat, nonce: Bytes,
                      sig: Bytes)
  {
    && document.Keys == {"audience", "channel", "owner", "mls_enabled", "not_after", "nonce", "signature"}
                        + (if c.ttlSeconds.Some? then {"ttl_seconds"} else {})
                        + (if c.ownerCallbackName.Some? then {"owner_callback_name"} else {})
    && document["audience"] == Text(c.audience) && document["channel"] == Text(c.channel)
    && document["owner"] == Text(ownerDid) && document["mls_enabled"] == Flag(c.mlsEnabled)
    && (c.ttlSeconds.Some? ==> document["ttl_seconds"] == Number(c.ttlSeconds.value))
    && (c.ownerCallbackName.Some? ==> document["owner_callback_name"] == Text(c.ownerCallbackName.value))
    && document["not_after"] == Number(notAfter) && document["nonce"] == Text(nonce)
    && document["signature"] == Text(sig)
  }

  function CreateSigned(c: ChannelCreation, ownerDid: Bytes, notAfter: nat, nonce: Bytes): Bytes {
    CREATE_DOMAIN + Tagged('\0', CreateParts(c, ownerDid, notAfter, nonce))
  }

  /** The document is filled in key by key, the two optional ones only when given. */
  method FillIn(c: ChannelCreation, ownerDid: Bytes, notAfter: nat, nonce: Bytes, sig: Bytes)
    returns (document: Document)
    ensures Describes(document, c, ownerDid, notAfter, nonce, sig)
  {
    document := map[];
    document := document["audience" := Text(c.audience)];
    document := document["channel" := Text(c.channel)];
    document := document["owner" := Text(ownerDid)];
    document := document["mls_enabled" := Flag(c.mlsEnabled)];
    if c.ttlSeconds.Some? {
      document := document["ttl_seconds" := Number(c.ttlSeconds.value)];
    }
    if c.ownerCallbackName.Some? {
      document := document["owner_callback_name" := Text(c.ownerCallbackName.value)];
    }
    document := document["not_after" := Number(notAfter)];
    document := document["nonce" := Text(nonce)];
    document := document["signature" := Text(sig)];
  }

  /** It is signed over exactly what it says. */
  method SignCreate(suite: Suite, json: JsonCodec, owner: AgentIdentity, c: ChannelCreation, notAfter: nat,
                    nonce: Option<Bytes>)
    returns (r: Result<Bytes, IdentityError>)
    ensures r.Ok? <==> CheckCreation(c).Ok? && nonce.Some?
    ensures r.Ok? && json.Lawful() ==>
              var sig := suite.base64StdEncode(owner.sign(CreateSigned(c, owner.did, notAfter, nonce.value)));
              && json.decode(r.value).Some?
              && Describes(json.decode(r.value).value, c, owner.did, notAfter, nonce.value, sig)
  {
    hide Describes, CreateSigned;
    var _ :- CheckCreation(c);
    if nonce.None? {
      return Err(KeyGen);
    }
    var sig := suite.base64StdEncode(owner.sign(CreateSigned(c, owner.did, notAfter, nonce.value)));
    var document := FillIn(c, owner.did, notAfter, nonce.value, sig);
    return Ok(json.encode(document));
  }

  /** What a channel manager reads back out of a delete document. */
  predicate DescribesDeletion(document: Document, audience: Bytes, channel: Bytes, notAfter: nat, nonce: Bytes,
                              sig: Bytes)
  {
    document == map["audience" := Text(audience), "channel" := Text(channel), "not_after" := Number(notAfter),
                    "nonce" := Text(nonce), "signature" := Text(sig)]
  }

  function DeleteSigned(audience: Bytes, channel: Bytes, notAfter: nat, nonce: Bytes): Bytes {
    DELETE_DOMAIN + Tagged('\0', DeleteParts(audience, channel, notAfter, nonce))
  }

  function SignDelete(suite: Suite, json: JsonCodec, owner: AgentIdentity, audience: Bytes, channel: Bytes,
                      notAfter: nat, nonce: Option<Bytes>): Result<Bytes, IdentityError>
  {
    if !CheckAudience(audience) then Err(BadAudience)
    else if !CheckName(channel) then Err(BadName)
    else if nonce.None? then Err(KeyGen)
    else
      var sig := suite.base64StdEncode(owner.sign(DeleteSigned(audience, channel, notAfter, nonce.value)));
      Ok(json.encode(map["audience" := Text(audience), "channel" := Text(channel), "not_after" := Number(notAfter),
                         "nonce" := Text(nonce.value), "signature" := Text(sig)]))
  }

  /** A manager that parses the bytes finds the request, signed over exactly what it says. */
  lemma {:induction false} DeletionReadsBack(suite: Suite, json: JsonCodec, owner: AgentIdentity, audience: Bytes,
                                             channel: Bytes, notAfter: nat, nonce: Option<Bytes>)
    returns (sig: Bytes)
    requires suite.Lawful() && json.Lawful() && owner.Genuine(suite)
    requires SignDelete(suite, json, owner, audience, channel, notAfter, nonce).Ok?
    ensures var read := json.decode(SignDelete(suite, json, owner, audience, channel, notAfter, nonce).value);
            read.Some? && DescribesDeletion(read.value, audience, channel, notAfter, nonce.value, sig)
    ensures suite.base64StdDecode(sig).Some?
            && suite.verify(ParseDidKey(suite, owner.did).value, DeleteSigned(audience, channel, notAfter, nonce.value),
                            suite.base64StdDecode(sig).value)
  {
    hide CheckName, CheckAudience, DeleteSigned, ParseDidKey, Suite.Lawful, AgentIdentity.Genuine;
    var signed := DeleteSigned(audience, channel, notAfter, nonce.value);
    StandardSignatureVerifies(suite, owner, signed);
    sig := suite.base64StdEncode(owner.sign(signed));
  }

  lemma StandardSignatureVerifies(suite: Suite, owner: AgentIdentity, signed: Bytes)
    requires suite.Lawful() && owner.Genuine(suite)
    ensures ParseDidKey(suite, owner.did).Ok?
    ensures var sig := suite.base64StdDecode(suite.base64StdEncode(owner.sign(signed)));
            sig.Some? && suite.verify(ParseDidKey(suite, owner.did).value, signed, sig.value)
  {
    hide ParseDidKey;
  }
}
