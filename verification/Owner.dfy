/** The owner as it runs: one object whose methods change its fields in place. */
module Owner {
  import opened Wrappers
  import opened Text
  import opened Grant
  import opened OwnerSpec

  class ChannelOwner {
    const cfg: Config
    var policy: OwnerPolicy
    var channels: set<Bytes>
    var pending: map<nat, PendingAsk>
    var nextAsk: nat
    var audit: seq<AuditEntry>

    ghost function View(): State
      reads this
    {
      State(policy, channels, pending, nextAsk, audit)
    }

    constructor (cfg: Config, policy: OwnerPolicy)
      ensures this.cfg == cfg && View() == State(policy, {}, map[], 1, [])
    {
      this.cfg := cfg;
      this.policy := policy;
      channels, pending, nextAsk, audit := {}, map[], 1, [];
    }

    method Hold(channel: Bytes)
      modifies this
      ensures View() == old(View()).(channels := old(channels) + {channel})
    {
      channels := channels + {channel};
    }

    method Release(channel: Bytes)
      modifies this
      ensures View() == old(View()).(channels := old(channels) - {channel})
    {
      channels := channels - {channel};
    }

    method HoldOnly(held: set<Bytes>)
      modifies this
      ensures View() == old(View()).(channels := held)
    {
      channels := held;
    }

    method SetPolicy(policy: OwnerPolicy)
      modifies this
      ensures View() == old(View()).(policy := policy)
    {
      this.policy := policy;
    }

    method Record(entry: AuditEntry, writes: nat) returns (r: Result<(), OwnerError>)
      modifies this
      ensures (View(), r) == OwnerSpec.Record(cfg, old(View()), entry, writes)
    {
      if cfg.logged && writes == 0 {
        return Err(AuditFailed);
      }
      audit := audit + [entry];
      return Ok(());
    }

    method GrantNow(request: InviteRequest, decidedBy: DecidedBy, askId: Option<nat>, now: nat, env: Env)
      returns (r: Result<Bytes, OwnerError>)
      modifies this
      ensures (View(), r) == OwnerSpec.GrantNow(cfg, old(View()), request, decidedBy, askId, now, env)
    {
      var notAfter := now + policy.grantSeconds;
      var grant := Grant.Issue(cfg.suite, cfg.json, cfg.identity, request.channel, request.inviteeName, request.action,
                               Member, notAfter, env.nonce);
      if grant.Err? {
        return Err(GrantFailed(grant.error));
      }
      var _ :- Record(AuditEntry(now, WasGranted, decidedBy, request, askId, Some(notAfter)), env.writes);
      return Ok(grant.value);
    }

    method Request(request: InviteRequest, now: nat, env: Env) returns (r: Result<Outcome, OwnerError>)
      modifies this
      ensures (View(), r) == OwnerSpec.Request(cfg, old(View()), request, now, env)
    {
      if request.channel !in channels {
        var _ :- Record(AuditEntry(now, WasRefused, NotHeld, request, None, None), env.writes);
        return Ok(Refused(NotHeld));
      }
      var (decision, decidedBy) := policy.Decide(request);
      match decision {
        case Allow =>
          var grant :- GrantNow(request, decidedBy, None, now, env);
          return Ok(Granted(grant));
        case Block =>
          var _ :- Record(AuditEntry(now, WasRefused, decidedBy, request, None, None), env.writes);
          return Ok(Refused(decidedBy));
        case Ask =>
          var id := nextAsk;
          nextAsk := nextAsk + 1;
          var expiresAt := now + policy.askTimeoutSeconds;
          var _ :- Record(AuditEntry(now, WasAsked, decidedBy, request, Some(id), None), env.writes);
          pending := pending[id := PendingAsk(id, request, now, expiresAt)];
          return Ok(Pending(id, expiresAt));
      }
    }

    method RequestUntil(request: InviteRequest, now: nat, deadline: nat, env: Env)
      returns (r: Result<Outcome, OwnerError>)
      modifies this
      ensures (View(), r) == OwnerSpec.RequestUntil(cfg, old(View()), request, now, deadline, env)
    {
      var outcome :- Request(request, now, env);
      if !outcome.Pending? {
        return Ok(outcome);
      }
      var id, expiresAt := outcome.askId, Min(outcome.expiresAt, deadline);
      if id in pending {
        pending := pending[id := pending[id].(expiresAt := expiresAt)];
      }
      return Ok(Pending(id, expiresAt));
    }

    method Approve(id: nat, now: nat, env: Env) returns (r: Result<Bytes, OwnerError>)
      modifies this
      ensures (View(), r) == OwnerSpec.Approve(cfg, old(View()), id, now, env)
    {
      var ask :- TakeLive(id, now, env);
      r := GrantNow(ask.request, ByOwner, Some(id), now, env);
    }

    method Deny(id: nat, now: nat, env: Env) returns (r: Result<(), OwnerError>)
      modifies this
      ensures (View(), r) == OwnerSpec.Deny(cfg, old(View()), id, now, env)
    {
      var ask :- TakeLive(id, now, env);
      r := Record(AuditEntry(now, WasDenied, ByOwner, ask.request, Some(id), None), env.writes);
    }

    method TakeLive(id: nat, now: nat, env: Env) returns (r: Result<PendingAsk, OwnerError>)
      modifies this
      ensures (View(), r) == OwnerSpec.TakeLive(cfg, old(View()), id, now, env)
    {
      if id !in pending {
        return Err(UnknownAsk(id));
      }
      var ask := pending[id];
      if now >= ask.expiresAt {
        var _ :- Expire(now, env);
        return Err(Expired(id));
      }
      pending := pending - {id};
      return Ok(ask);
    }

    method ExpireOne(id: nat, now: nat, writes: nat) returns (r: Result<PendingAsk, OwnerError>)
      requires id in pending
      modifies this
      ensures (View(), r) == OwnerSpec.ExpireOne(cfg, old(View()), id, now, writes)
    {
      var ask := pending[id];
      pending := pending - {id};
      var _ :- Record(TimeoutEntry(ask, id, now), writes);
      return Ok(ask);
    }

    /** The loop removes one ask at a time and stops at the first denial it cannot record. */
    method Expire(now: nat, env: Env) returns (r: Result<seq<PendingAsk>, OwnerError>)
      modifies this
      ensures (View(), r) == OwnerSpec.Expire(cfg, old(View()), now, env)
    {
      var lapsed := LapsedIds(pending, now);
      var denied: seq<PendingAsk> := [];
      var writes := env.writes;
      assert lapsed[0..] == lapsed;
      for i := 0 to |lapsed|
        invariant Increasing(lapsed[i..]) && forall id :: id in lapsed[i..] ==> id in pending
        invariant ExpireEach(cfg, View(), lapsed[i..], now, writes, denied)
               == OwnerSpec.Expire(cfg, old(View()), now, env)
      {
        ghost var rest := lapsed[i..];
        assert rest[0] == lapsed[i] && rest[1..] == lapsed[i + 1..];
        LaterIds(rest);
        var ask :- ExpireOne(lapsed[i], now, writes);
        writes := Less(writes);
        denied := denied + [ask];
      }
      return Ok(denied);
    }
  }
}
