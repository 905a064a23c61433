/**
 Everything an identity signs in this system, side by side: no signature made for one statement
 can be read as a signature on another.
 */
module SignedStatements {
  import opened Wrappers
  import opened Text
  import opened Identity
  import DidProof
  import Binding
  import Grant
  import ChannelRequest

  datatype Statement =
    | Proof(did: Bytes, payload: Bytes)
    | Bind(binding: Binding.VerifiedBinding)
    | Permit(grant: Grant.ChannelGrant)
    | Create(creation: ChannelRequest.ChannelCreation, ownerDid: Bytes, createUntil: nat, createNonce: Bytes)
    | Delete(audience: Bytes, channel: Bytes, deleteUntil: nat, deleteNonce: Bytes)

  /** The field values issuers and verifiers let through. A payload, an agent name and a nonce may
      hold any byte, NUL included. */
  predicate Acceptable(suite: Suite, s: Statement) {
    match s
    case Proof(did, _) => ParseDidKey(suite, did).Ok?
    case Bind(b) => ParseDidKey(suite, b.humanDid).Ok? && ParseDidKey(suite, b.agentDid).Ok?
    case Permit(g) => CheckName(g.channel) && CheckName(g.invitee)
    case Create(c, did, _, _) => ChannelRequest.CheckCreation(c).Ok? && ParseDidKey(suite, did).Ok?
    case Delete(audience, channel, _, _) => ChannelRequest.CheckAudience(audience) && CheckName(channel)
  }

  /** The bytes each module signs. */
  function SignedBytes(s: Statement): Bytes {
    match s
    case Proof(did, payload) => DidProof.Canonical(did, payload)
    case Bind(b) => Binding.Canonical(b)
    case Permit(g) => Grant.Canonical(g)
    case Create(c, did, until, nonce) =>
      ChannelRequest.CREATE_DOMAIN + Tagged('\0', ChannelRequest.CreateParts(c, did, until, nonce))
    case Delete(audience, channel, until, nonce) =>
      ChannelRequest.DELETE_DOMAIN + Tagged('\0', ChannelRequest.DeleteParts(audience, channel, until, nonce))
  }

  function Domain(s: Statement): Bytes {
    match s
    case Proof(_, _) => DidProof.DOMAIN
    case Bind(_) => Binding.DOMAIN
    case Permit(_) => Grant.DOMAIN
    case Create(_, _, _, _) => ChannelRequest.CREATE_DOMAIN
    case Delete(_, _, _, _) => ChannelRequest.DELETE_DOMAIN
  }

  function Parts(s: Statement): seq<Bytes> {
    match s
    case Proof(did, payload) => [did, payload]
    case Bind(b) => [b.humanDid, b.agentDid, b.agentName, Decimal(b.notAfter)]
    case Permit(g) => [g.channel, g.invitee, g.action.AsText(), g.role.AsText(), Decimal(g.notAfter), g.nonce]
    case Create(c, did, until, nonce) => ChannelRequest.CreateParts(c, did, until, nonce)
    case Delete(audience, channel, until, nonce) => ChannelRequest.DeleteParts(audience, channel, until, nonce)
  }

  /** The one part of each kind that may hold a NUL. */
  function Free(s: Statement): nat {
    match s
    case Proof(_, _) => 1
    case Bind(_) => 2
    case Permit(_) => 5
    case Create(_, _, _, _) => 7
    case Delete(_, _, _, _) => 3
  }

  lemma {:induction false} SignedBytesAreTagged(s: Statement)
    ensures SignedBytes(s) == Domain(s) + Tagged('\0', Parts(s))
  {
    if s.Proof? {
      assert Tagged('\0', [s.payload]) == "\0" + s.payload;
      assert [s.did, s.payload][1..] == [s.payload];
      assert Tagged('\0', [s.did, s.payload]) == "\0" + s.did + ("\0" + s.payload);
    }
  }

  lemma {:induction false} DomainsDiffer(s: Statement, t: Statement)
    requires Domain(s) == Domain(t)
    ensures s.Proof? == t.Proof? && s.Bind? == t.Bind? && s.Permit? == t.Permit?
    ensures s.Create? == t.Create? && s.Delete? == t.Delete?
  {
    assert |DidProof.DOMAIN| == 17 && |Grant.DOMAIN| == 20;
    assert |Binding.DOMAIN| == |ChannelRequest.CREATE_DOMAIN| == |ChannelRequest.DELETE_DOMAIN| == 21;
    assert Binding.DOMAIN[1] == 'H' && ChannelRequest.CREATE_DOMAIN[1] == 'L' && ChannelRequest.DELETE_DOMAIN[1] == 'L';
    assert ChannelRequest.CREATE_DOMAIN[13] == 'C' && ChannelRequest.DELETE_DOMAIN[13] == 'D';
  }

  lemma {:induction false} DomainIsPlain(s: Statement)
    ensures '\0' !in Domain(s)
  {
  }

  lemma {:induction false} DecimalHasNoNul(n: nat)
    ensures '\0' !in Decimal(n)
  {
    assert forall k :: 0 <= k < |Decimal(n)| ==> IsDigit(Decimal(n)[k]);
  }

  lemma {:induction false} DidHasNoNul(suite: Suite, did: Bytes)
    requires suite.Lawful() && ParseDidKey(suite, did).Ok?
    ensures '\0' !in did
  {
    ParsedDidIsPlain(suite, did);
  }

  lemma {:induction false} CreatePartsHaveNoNul(c: ChannelRequest.ChannelCreation, did: Bytes, until: nat, nonce: Bytes)
    requires ChannelRequest.CheckCreation(c).Ok? && '\0' !in did
    ensures var parts := ChannelRequest.CreateParts(c, did, until, nonce);
            forall k :: 0 <= k < |parts| && k != 7 ==> '\0' !in parts[k]
  {
    CheckedNameIsPlain(c.channel);
    DecimalHasNoNul(until);
    if c.ttlSeconds.Some? { DecimalHasNoNul(c.ttlSeconds.value); }
    if c.ownerCallbackName.Some? { CheckedNameIsPlain(c.ownerCallbackName.value); }
    hide CheckName, Decimal;
  }

  lemma {:induction false} OtherPartsHaveNoNul(suite: Suite, s: Statement)
    requires suite.Lawful() && Acceptable(suite, s)
    ensures forall k :: 0 <= k < |Parts(s)| && k != Free(s) ==> '\0' !in Parts(s)[k]
  {
    hide CheckName, Decimal, ParseDidKey, ChannelRequest.CheckCreation, ChannelRequest.CreateParts;
    match s
    case Proof(did, _) =>
      DidHasNoNul(suite, did);
    case Bind(b) =>
      DidHasNoNul(suite, b.humanDid);
      DidHasNoNul(suite, b.agentDid);
      DecimalHasNoNul(b.notAfter);
    case Permit(g) =>
      CheckedNameIsPlain(g.channel);
      CheckedNameIsPlain(g.invitee);
      DecimalHasNoNul(g.notAfter);
    case Create(c, did, until, nonce) =>
      DidHasNoNul(suite, did);
      CreatePartsHaveNoNul(c, did, until, nonce);
    case Delete(_, channel, until, _) =>
      CheckedNameIsPlain(channel);
      DecimalHasNoNul(until);
  }

  /** Within one kind, the parts give back every field. */
  lemma {:induction false} PartsInjective(suite: Suite, s: Statement, t: Statement)
    requires Acceptable(suite, s) && Acceptable(suite, t) && Parts(s) == Parts(t)
    requires s.Proof? == t.Proof? && s.Bind? == t.Bind? && s.Permit? == t.Permit?
    requires s.Create? == t.Create? && s.Delete? == t.Delete?
    ensures s == t
  {
    match s
    case Proof(_, _) =>
      assert Parts(s)[0] == Parts(t)[0] && Parts(s)[1] == Parts(t)[1];
    case Bind(b) =>
      assert forall k :: 0 <= k < 4 ==> Parts(s)[k] == Parts(t)[k];
      DecimalInjective(b.notAfter, t.binding.notAfter);
    case Permit(g) =>
      assert forall k :: 0 <= k < 6 ==> Parts(s)[k] == Parts(t)[k];
      DecimalInjective(g.notAfter, t.grant.notAfter);
      assert |Grant.GrantAction.Add.AsText()| == 3 && |Grant.GrantAction.Delete.AsText()| == 6;
    case Create(c, did, until, nonce) =>
      CreatePartsInjective(c, did, until, nonce, t.creation, t.ownerDid, t.createUntil, t.createNonce);
    case Delete(_, _, until, _) =>
      assert forall k :: 0 <= k < 4 ==> Parts(s)[k] == Parts(t)[k];
      DecimalInjective(until, t.deleteUntil);
  }

  lemma {:induction false} CreatePartsInjective(
      c: ChannelRequest.ChannelCreation, did: Bytes, until: nat, nonce: Bytes,
      c': ChannelRequest.ChannelCreation, did': Bytes, until': nat, nonce': Bytes)
    requires ChannelRequest.CheckCreation(c).Ok? && ChannelRequest.CheckCreation(c').Ok?
    requires ChannelRequest.CreateParts(c, did, until, nonce) == ChannelRequest.CreateParts(c', did', until', nonce')
    ensures c == c' && did == did' && until == until' && nonce == nonce'
  {
    var p := ChannelRequest.CreateParts(c, did, until, nonce);
    var q := ChannelRequest.CreateParts(c', did', until', nonce');
    assert p[0] == q[0] && p[1] == q[1] && p[2] == q[2] && p[7] == q[7];
    assert p[3] == q[3] && |"true"| == 4 && |"false"| == 5;
    assert p[4] == q[4];
    if c.ttlSeconds.Some? && c'.ttlSeconds.Some? {
      DecimalInjective(c.ttlSeconds.value, c'.ttlSeconds.value);
    }
    assert p[5] == q[5];
    if c.ownerCallbackName.Some? { CheckedNameIsPlain(c.ownerCallbackName.value); }
    if c'.ownerCallbackName.Some? { CheckedNameIsPlain(c'.ownerCallbackName.value); }
    assert p[6] == q[6];
    DecimalInjective(until, until');
  }

  /** Equal signed bytes mean the same statement: the kinds are disjoint, and within a kind every
      field is pinned down. */
  lemma {:induction false} SignedBytesInjective(suite: Suite, s: Statement, t: Statement)
    requires suite.Lawful() && Acceptable(suite, s) && Acceptable(suite, t)
    requires SignedBytes(s) == SignedBytes(t)
    ensures s == t
  {
    SignedBytesAreTagged(s);
    SignedBytesAreTagged(t);
    DomainIsPlain(s);
    DomainIsPlain(t);
    TaggedBehindWord('\0', Domain(s), Parts(s), Domain(t), Parts(t));
    DomainsDiffer(s, t);
    OtherPartsHaveNoNul(suite, s);
    OtherPartsHaveNoNul(suite, t);
    TaggedInjective('\0', Parts(s), Parts(t), Free(s));
    PartsInjective(suite, s, t);
  }
}
