/**
 Why the owner ever signs: every grant in the log of every run goes back to a request on a held
 channel that the rules allowed outright, or to an ask the human approved in time.
 */
module OwnerGrants {
  import opened Wrappers
  import opened Text
  import opened Identity
  import opened Grant
  import opened OwnerSpec
  import opened OwnerRuns

  /** When an ask made by `c` in state `s` lapses: at the policy's timeout, or at the caller's
      deadline when that comes first. */
  function Expiry(s: State, c: Command): nat
    requires c.DoRequest?
  {
    var timeout := c.now + s.policy.askTimeoutSeconds;
    if c.deadline.Some? && c.deadline.value < timeout then c.deadline.value else timeout
  }

  /** Request `c`, in state `s`, became `ask`: its channel was held and the rules said to ask. */
  predicate Becomes(s: State, c: Command, ask: PendingAsk) {
    && c.DoRequest?
    && ask == PendingAsk(s.nextAsk, c.request, c.now, Expiry(s, c))
    && c.request.channel in s.channels
    && s.policy.Decide(c.request).0 == Ask
  }

  /** Request `c`, in state `s`, was allowed outright, as entry `e` says. */
  predicate AllowedBy(s: State, c: Command, e: AuditEntry) {
    && c.DoRequest?
    && e.request == c.request && e.at == c.now
    && c.request.channel in s.channels
    && s.policy.Decide(c.request) == (Allow, e.decidedBy)
  }

  ghost predicate HasOrigin(cfg: Config, policy: OwnerPolicy, cs: seq<Command>, ask: PendingAsk) {
    exists k :: 0 <= k < |cs| && Becomes(Run(cfg, policy, cs[..k]), cs[k], ask)
  }

  ghost predicate Justified(cfg: Config, policy: OwnerPolicy, cs: seq<Command>, e: AuditEntry) {
    e.verdict == WasGranted ==>
      if e.askId.None? then
        exists k :: 0 <= k < |cs| && AllowedBy(Run(cfg, policy, cs[..k]), cs[k], e)
      else
        exists ask :: && HasOrigin(cfg, policy, cs, ask) && ApprovedInTime(e, ask)
  }

  predicate ApprovedInTime(e: AuditEntry, ask: PendingAsk) {
    && e.askId == Some(ask.id) && e.request == ask.request && e.decidedBy == ByOwner
    && e.at < ask.expiresAt
  }

  // --- One step ------------------------------------------------------------------------------

  /** What a step may do to the waiting asks and to the grants in the log. */
  ghost predicate StepKeeps(s: State, c: Command, s': State) {
    && (forall id :: id in s'.pending ==>
          (id in s.pending && s'.pending[id] == s.pending[id]) || Becomes(s, c, s'.pending[id]))
    && |s.audit| <= |s'.audit| && s'.audit[..|s.audit|] == s.audit
    && (forall k :: |s.audit| <= k < |s'.audit| && s'.audit[k].verdict == WasGranted ==>
          if s'.audit[k].askId.None? then AllowedBy(s, c, s'.audit[k])
          else
            var id := s'.audit[k].askId.value;
            id in s.pending && (s.pending[id].id == id ==> ApprovedInTime(s'.audit[k], s.pending[id])))
  }

  lemma {:induction false} ExpireGrantsNothing(cfg: Config, s: State, ids: seq<nat>, now: nat, writes: nat,
                                               denied: seq<PendingAsk>)
    requires Increasing(ids) && forall id :: id in ids ==> id in s.pending
    ensures var s' := ExpireEach(cfg, s, ids, now, writes, denied).0;
            && (forall id :: id in s'.pending ==> id in s.pending && s'.pending[id] == s.pending[id])
            && |s.audit| <= |s'.audit| && s'.audit[..|s.audit|] == s.audit
            && forall k :: |s.audit| <= k < |s'.audit| ==> s'.audit[k].verdict == WasDenied
    decreases |ids|
  {
    if ids != [] {
      assert ids[0] in ids;
      var (s1, one) := ExpireOne(cfg, s, ids[0], now, writes);
      if one.Ok? {
        assert forall k :: k in ids[1..] ==> k in ids && k != ids[0];
        ExpireGrantsNothing(cfg, s1, ids[1..], now, Less(writes), denied + [one.value]);
        var s' := ExpireEach(cfg, s1, ids[1..], now, Less(writes), denied + [one.value]).0;
        assert s'.audit[..|s.audit|] == s'.audit[..|s1.audit|][..|s.audit|];
        assert s'.audit[|s.audit|] == s'.audit[..|s1.audit|][|s.audit|];
      }
    }
  }

  lemma {:induction false} RequestKeeps(cfg: Config, s: State, c: Command)
    requires c.DoRequest?
    ensures StepKeeps(s, c, Step(cfg, s, c))
  {
    hide OwnerPolicy.Decide, IssueFor;
    var (s1, r) := Request(cfg, s, c.request, c.now, c.env);
    if r.Ok? && r.value.Pending? {
      assert s1.pending
          == s.pending[s.nextAsk := PendingAsk(s.nextAsk, c.request, c.now, c.now + s.policy.askTimeoutSeconds)];
    } else {
      assert s1.pending == s.pending;
    }
  }

  lemma {:induction false} AnswerKeeps(cfg: Config, s: State, c: Command)
    requires c.DoApprove? || c.DoDeny?
    ensures StepKeeps(s, c, Step(cfg, s, c))
  {
    if c.id in s.pending {
      if c.now >= s.pending[c.id].expiresAt {
        ExpireGrantsNothing(cfg, s, LapsedIds(s.pending, c.now), c.now, c.env.writes, []);
      } else {
        AnswerInTimeIs(cfg, s, c.id, c.now, c.env);
      }
    }
  }

  lemma {:induction false} EveryStepKeeps(cfg: Config, s: State, c: Command)
    ensures StepKeeps(s, c, Step(cfg, s, c))
  {
    match c
    case DoRequest(_, _, _, _) => RequestKeeps(cfg, s, c);
    case DoApprove(_, _, _) => AnswerKeeps(cfg, s, c);
    case DoDeny(_, _, _) => AnswerKeeps(cfg, s, c);
    case DoExpire(now, env) => ExpireGrantsNothing(cfg, s, LapsedIds(s.pending, now), now, env.writes, []);
    case _ =>
  }

  // --- Every run -----------------------------------------------------------------------------

  lemma {:induction false} JustifiedLater(cfg: Config, policy: OwnerPolicy, cs: seq<Command>, c: Command, e: AuditEntry)
    requires Justified(cfg, policy, cs, e)
    ensures Justified(cfg, policy, cs + [c], e)
  {
    if e.verdict == WasGranted {
      if e.askId.None? {
        var k :| 0 <= k < |cs| && AllowedBy(Run(cfg, policy, cs[..k]), cs[k], e);
        assert (cs + [c])[..k] == cs[..k] && (cs + [c])[k] == cs[k];
      } else {
        var ask :| HasOrigin(cfg, policy, cs, ask) && ApprovedInTime(e, ask);
        OriginLater(cfg, policy, cs, c, ask);
      }
    }
  }

  lemma {:induction false} OriginLater(cfg: Config, policy: OwnerPolicy, cs: seq<Command>, c: Command, ask: PendingAsk)
    requires HasOrigin(cfg, policy, cs, ask)
    ensures HasOrigin(cfg, policy, cs + [c], ask)
  {
    var k :| 0 <= k < |cs| && Becomes(Run(cfg, policy, cs[..k]), cs[k], ask);
    assert (cs + [c])[..k] == cs[..k] && (cs + [c])[k] == cs[k];
  }

  /** Every waiting ask was made by a request of the run, under its own id. */
  ghost predicate WaitingHaveOrigins(cfg: Config, policy: OwnerPolicy, cs: seq<Command>) {
    var s := Run(cfg, policy, cs);
    forall id :: id in s.pending ==> HasOrigin(cfg, policy, cs, s.pending[id])
  }

  lemma {:induction false} WaitingKeyedById(cfg: Config, policy: OwnerPolicy, cs: seq<Command>)
    ensures var s := Run(cfg, policy, cs); forall id :: id in s.pending ==> s.pending[id].id == id
    decreases |cs|
  {
    if cs != [] {
      var before, c := cs[..|cs| - 1], cs[|cs| - 1];
      WaitingKeyedById(cfg, policy, before);
      StepKeyed(cfg, Run(cfg, policy, before), c);
    }
  }

  lemma {:induction false} StepKeyed(cfg: Config, s: State, c: Command)
    requires forall id :: id in s.pending ==> s.pending[id].id == id
    ensures forall id :: id in Step(cfg, s, c).pending ==> Step(cfg, s, c).pending[id].id == id
  {
    if c.DoRequest? {
      var (s1, r) := Request(cfg, s, c.request, c.now, c.env);
      assert forall id :: id in s1.pending ==> s1.pending[id].id == id;
    } else {
      EveryStepKeeps(cfg, s, c);
    }
  }

  lemma {:induction false} WaitingOriginsStep(cfg: Config, policy: OwnerPolicy, before: seq<Command>, c: Command)
    requires WaitingHaveOrigins(cfg, policy, before)
    ensures WaitingHaveOrigins(cfg, policy, before + [c])
  {
    var cs := before + [c];
    assert cs[..|before|] == before && cs[|before|] == c && cs[..|cs| - 1] == before;
    var s, s' := Run(cfg, policy, before), Run(cfg, policy, cs);
    EveryStepKeeps(cfg, s, c);
    forall id | id in s'.pending ensures HasOrigin(cfg, policy, cs, s'.pending[id]) {
      if Becomes(s, c, s'.pending[id]) {
        assert Becomes(Run(cfg, policy, cs[..|before|]), cs[|before|], s'.pending[id]);
      } else {
        OriginLater(cfg, policy, before, c, s.pending[id]);
      }
    }
  }

  lemma {:induction false} JustifiedStep(cfg: Config, policy: OwnerPolicy, before: seq<Command>, c: Command,
                                         e: AuditEntry)
    requires WaitingHaveOrigins(cfg, policy, before)
    requires var s, s' := Run(cfg, policy, before), Run(cfg, policy, before + [c]);
             exists k :: |s.audit| <= k < |s'.audit| && s'.audit[k] == e
    ensures Justified(cfg, policy, before + [c], e)
  {
    var cs := before + [c];
    assert cs[..|before|] == before && cs[|before|] == c && cs[..|cs| - 1] == before;
    var s, s' := Run(cfg, policy, before), Run(cfg, policy, cs);
    EveryStepKeeps(cfg, s, c);
    WaitingKeyedById(cfg, policy, before);
    if e.verdict == WasGranted {
      if e.askId.None? {
        assert AllowedBy(Run(cfg, policy, cs[..|before|]), cs[|before|], e);
      } else {
        var ask := s.pending[e.askId.value];
        OriginLater(cfg, policy, before, c, ask);
        assert ApprovedInTime(e, ask);
      }
    }
  }

  /** Over every run: a grant recorded with an ask id was approved strictly before that ask's expiry,
      hence before any caller's deadline, for the request asked on a then-held channel; a grant
      without one was allowed by the first matching rule, or the default, on a held channel. */
  lemma {:induction false} EveryGrantIsJustified(cfg: Config, policy: OwnerPolicy, cs: seq<Command>)
    ensures WaitingHaveOrigins(cfg, policy, cs)
    ensures var s := Run(cfg, policy, cs);
            forall k :: 0 <= k < |s.audit| ==> Justified(cfg, policy, cs, s.audit[k])
    decreases |cs|
  {
    if cs != [] {
      var before, c := cs[..|cs| - 1], cs[|cs| - 1];
      assert cs == before + [c];
      EveryGrantIsJustified(cfg, policy, before);
      WaitingOriginsStep(cfg, policy, before, c);
      var s, s' := Run(cfg, policy, before), Run(cfg, policy, cs);
      EveryStepKeeps(cfg, s, c);
      forall k | 0 <= k < |s'.audit| ensures Justified(cfg, policy, cs, s'.audit[k]) {
        if k < |s.audit| {
          assert s'.audit[k] == s'.audit[..|s.audit|][k];
          JustifiedLater(cfg, policy, before, c, s'.audit[k]);
        } else {
          JustifiedStep(cfg, policy, before, c, s'.audit[k]);
        }
      }
    }
  }

  // --- The grants themselves -----------------------------------------------------------------

  /** What a caller is handed verifies under the owner's DID, for exactly the request decided, until
      the policy's lifetime has passed: if and only if its document is within the verifier's cap. */
  lemma {:induction false} GrantedVerifies(cfg: Config, s: State, request: InviteRequest, decidedBy: DecidedBy,
                                           askId: Option<nat>, now: nat, env: Env, later: nat)
    requires cfg.suite.Lawful() && cfg.json.Lawful() && cfg.identity.Genuine(cfg.suite)
    requires now + s.policy.grantSeconds < U64_LIMIT
    requires GrantNow(cfg, s, request, decidedBy, askId, now, env).1.Ok?
    ensures var grant := GrantNow(cfg, s, request, decidedBy, askId, now, env).1.value;
            var notAfter := now + s.policy.grantSeconds;
            var g := ChannelGrant(request.channel, request.inviteeName, request.action, Member, notAfter,
                                  env.nonce.value);
            Grant.Verify(cfg.suite, cfg.json, grant, cfg.identity.did, later) == Ok(g)
            <==> GrantSize(g) <= GRANT_MAX && later <= notAfter
  {
    Grant.VerifyIssue(cfg.suite, cfg.json, cfg.identity, request.channel, request.inviteeName, request.action,
                      now + s.policy.grantSeconds, env.nonce, later);
  }
}
