/**
 One suite, one identity and codecs that keep every law assumed in this project, so that no result
 assuming them is empty, and what the signed formats do with them.
 */
module Instances {
  import opened Wrappers
  import opened Text
  import opened Identity
  import opened ConcreteEncodings
  import opened OwnerSpec
  import DidProof
  import Grant
  import OwnerIntake

  const KEY_TEXT: Bytes := "6Mk"
  const DID: Bytes := "did:key:z6Mk"

  function Zeros(n: nat): (s: Bytes)
    ensures |s| == n && Octets(s)
  {
    if n == 0 then "" else ['\0'] + Zeros(n - 1)
  }

  /** One key, whose signatures are 64 zero bytes and always accepted. */
  function OneKeySuite(): Suite {
    Suite((s: Bytes) => if s == KEY_TEXT then Some([0xED as char, 0x01 as char] + Zeros(32)) else None,
          (point: Bytes) => true,
          (key: Key, message: Bytes, signature: Bytes) => true,
          (key: Key, message: Bytes, signature: Bytes) => true,
          (b: Bytes) => Encode64Url(b),
          (s: Bytes) => Some(FromDigits(s)),
          (b: Bytes) => Encode64(b),
          (s: Bytes) => Some(Decode64(s)))
  }

  function OneIdentity(): AgentIdentity {
    AgentIdentity(DID, (m: Bytes) => Zeros(64))
  }

  lemma {:induction false} Base64Laws()
    ensures forall b :: Octets(b) ==> FromDigits(Encode64Url(b)) == b && Base64Text(Encode64Url(b))
    ensures forall b :: Octets(b) && |b| == 64 ==> |Encode64Url(b)| == 86 && |Encode64(b)| == 88
    ensures forall b :: Octets(b) ==> Decode64(Encode64(b)) == b && Base64StdText(Encode64(b))
  {
    forall b | Octets(b)
      ensures FromDigits(Encode64Url(b)) == b && Base64Text(Encode64Url(b)) && (|b| == 64 ==> |Encode64Url(b)| == 86)
    {
      Base64UrlIsLawful(b);
    }
    forall b | Octets(b) ensures Decode64(Encode64(b)) == b && Base64StdText(Encode64(b)) {
      Decode64Of(b);
      Encode64Text(b);
    }
    forall b | Octets(b) && |b| == 64 ensures |Encode64(b)| == 88 {
      Encode64Size(b);
    }
    hide Encode64Url, Encode64, FromDigits, Decode64, Base64Text, Base64StdText, Octets;
  }

  lemma {:induction false} SuiteIsLawful()
    ensures OneKeySuite().Lawful()
  {
    hide Encode64Url, Encode64, FromDigits, Decode64, Base64Text, Base64StdText, Octets;
    Base64Laws();
    assert Alphanumeric(KEY_TEXT);
  }

  lemma {:induction false} IdentityIsGenuine()
    ensures OneIdentity().Genuine(OneKeySuite())
  {
    assert DID[..|DID_PREFIX|] == DID_PREFIX && DID[|DID_PREFIX|..] == KEY_TEXT;
    assert ParseDidKey(OneKeySuite(), DID).Ok?;
  }

  /** Everything assumed of encodings, signatures and identities anywhere in this project can hold at
      once. */
  lemma {:induction false} AssumptionsCanBeMet()
    ensures OneKeySuite().Lawful() && OneIdentity().Genuine(OneKeySuite())
    ensures Writer().Lawful() && Records().Lawful()
  {
    SuiteIsLawful();
    IdentityIsGenuine();
    JsonIsLawful();
    RecordsAreLawful();
  }

  /** Any two fields that fit, and any genuine agent: a request signed without header and binding is
      admitted as it was written. */
  lemma {:induction false} PlainRequestIsAdmitted(suite: Suite, agent: AgentIdentity, channel: Bytes, invitee: Bytes,
                                                  now: nat)
    requires suite.Lawful() && agent.Genuine(suite)
    requires OwnerIntake.FieldFits(channel) && OwnerIntake.FieldFits(invitee) && Utf8(channel) && Utf8(invitee)
    requires |channel| < 1000 && |invitee| < 1000
    ensures var signed := DidProof.Wrap(suite, agent, OwnerIntake.RenderRequest(channel, invitee, agent.did));
            && signed.Ok?
            && OwnerIntake.Admit(suite, signed.value, now)
               == Ok(InviteRequest(channel, invitee, Some(agent.did), Grant.Add, agent.did, None))
  {
    ParsedDidIsPlain(suite, agent.did);
    RequestIsShort(channel, invitee, agent.did);
    hide Blank, SingleLine, Utf8, OwnerIntake.RenderRequest, OwnerIntake.Admit, DidProof.Wrap, ParseDidKey;
    OwnerIntake.AdmitSigned(suite, agent, None, None, channel, invitee, agent.did, now);
  }

  lemma RequestIsShort(channel: Bytes, invitee: Bytes, did: Bytes)
    requires |channel| < 1000 && |invitee| < 1000 && |did| < 1000
    ensures |OwnerIntake.RenderRequest(channel, invitee, did)| <= DidProof.PAYLOAD_MAX
  {
  }

  /** With this suite and this identity, whatever the two names are. */
  lemma {:induction false} VisibleRequestIsAdmitted(channel: Bytes, invitee: Bytes, now: nat)
    requires channel != "" && Visible(channel) && |channel| < 1000
    requires invitee != "" && Visible(invitee) && |invitee| < 1000
    ensures var (suite, agent) := (OneKeySuite(), OneIdentity());
            var signed := DidProof.Wrap(suite, agent, OwnerIntake.RenderRequest(channel, invitee, agent.did));
            && signed.Ok?
            && OwnerIntake.Admit(suite, signed.value, now)
               == Ok(InviteRequest(channel, invitee, Some(agent.did), Grant.Add, agent.did, None))
  {
    AssumptionsCanBeMet();
    PlainField(channel);
    PlainField(invitee);
    hide OwnerIntake.FieldFits, OwnerIntake.RenderRequest, OwnerIntake.Admit, DidProof.Wrap, Utf8;
    PlainRequestIsAdmitted(OneKeySuite(), OneIdentity(), channel, invitee, now);
  }

  lemma PlainField(s: Bytes)
    requires s != "" && Visible(s)
    ensures OwnerIntake.FieldFits(s) && Utf8(s)
  {
    AsciiIsUtf8(s);
    assert WhiteStep(s) == 0;
  }
}
