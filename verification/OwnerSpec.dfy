/**
 What a channel owner decides, operation by operation: a request is granted, refused or left for the
 human by the first rule that matches, a left one can still be answered until it lapses, and what was
 decided goes into a log that only grows.

 What the outside world may do to one call is its `Env`: the random nonce, when there is one, and
 how many audit writes succeed. A call stops at its first failed write, so a count says it all.
 Times are Unix seconds as unbounded naturals.
 */
module OwnerSpec {
  import opened Wrappers
  import opened Text
  import opened Identity
  import opened Grant
  import opened Json

  datatype OwnerError =
    | UnknownAsk(ask: nat)
    | Expired(ask: nat)
    | GrantFailed(cause: IdentityError)
    | AuditFailed

  datatype Decision = Allow | Ask | Block

  datatype InviteRequest = InviteRequest(
    channel: Bytes,
    inviteeName: Bytes,
    inviteeDid: Option<Bytes>,
    action: GrantAction,
    requester: Bytes,
    requesterHumanDid: Option<Bytes>)

  // --- Standing rules ------------------------------------------------------------------------

  datatype Rule = Rule(
    channel: Bytes,
    invitee: Option<Bytes>,
    requestedBy: Option<Bytes>,
    requestedByHuman: Option<Bytes>,
    action: Option<GrantAction>,
    decision: Decision)
  {
    predicate Matches(request: InviteRequest) {
      && (channel == "*" || channel == request.channel)
      && (if action.Some? then action.value else Add) == request.action
      && (if invitee.Some? && StartsWith(invitee.value, "did:")
          then invitee == request.inviteeDid
          else Is(invitee, Some(request.inviteeName)))
      && Is(requestedBy, Some(request.requester))
      && Is(requestedByHuman, request.requesterHumanDid)
    }
  }

  predicate Is(want: Option<Bytes>, have: Option<Bytes>) {
    want.None? || want == have
  }

  datatype DecidedBy = ByRule(index: nat) | ByDefault | NotHeld | ByOwner | ByTimeout

  datatype OwnerPolicy = OwnerPolicy(fallback: Decision, askTimeoutSeconds: nat, grantSeconds: nat, rules: seq<Rule>) {
    function Decide(request: InviteRequest): (Decision, DecidedBy) {
      var at := FirstMatch(rules, request, 0);
      if at < |rules| then (rules[at].decision, ByRule(at)) else (fallback, ByDefault)
    }
  }

  function FirstMatch(rules: seq<Rule>, request: InviteRequest, from: nat): nat
    requires from <= |rules|
    decreases |rules| - from
  {
    if from == |rules| || rules[from].Matches(request) then from else FirstMatch(rules, request, from + 1)
  }

  lemma {:induction false} FirstMatchIsFirst(rules: seq<Rule>, request: InviteRequest, from: nat)
    requires from <= |rules|
    ensures var at := FirstMatch(rules, request, from);
            && from <= at <= |rules| && (at < |rules| ==> rules[at].Matches(request))
            && forall k :: from <= k < at ==> !rules[k].Matches(request)
    decreases |rules| - from
  {
    if from < |rules| && !rules[from].Matches(request) {
      FirstMatchIsFirst(rules, request, from + 1);
    }
  }

  /** The first matching rule decides; the fallback decides exactly when no rule matches. */
  lemma {:induction false} DecideIsFirstMatch(policy: OwnerPolicy, request: InviteRequest)
    ensures forall i: nat :: policy.Decide(request).1 == ByRule(i)
              <==> && i < |policy.rules| && policy.rules[i].Matches(request)
                   && forall k :: 0 <= k < i ==> !policy.rules[k].Matches(request)
    ensures forall i: nat :: policy.Decide(request).1 == ByRule(i) ==>
              policy.Decide(request).0 == policy.rules[i].decision
    ensures policy.Decide(request).1 == ByDefault
            <==> (forall k :: 0 <= k < |policy.rules| ==> !policy.rules[k].Matches(request))
    ensures policy.Decide(request).1 == ByDefault ==> policy.Decide(request).0 == policy.fallback
  {
    FirstMatchIsFirst(policy.rules, request, 0);
  }

  // --- State ---------------------------------------------------------------------------------

  datatype Outcome =
    | Granted(grant: Bytes)
    | Pending(askId: nat, expiresAt: nat)
    | Refused(decidedBy: DecidedBy)

  datatype PendingAsk = PendingAsk(id: nat, request: InviteRequest, askedAt: nat, expiresAt: nat)

  datatype Verdict = WasAsked | WasGranted | WasDenied | WasRefused

  datatype AuditEntry = AuditEntry(
    at: nat,
    verdict: Verdict,
    decidedBy: DecidedBy,
    request: InviteRequest,
    askId: Option<nat>,
    grantNotAfter: Option<nat>)

  /** Fixed when the owner starts: its key, the encodings, and whether the log also goes to a file. */
  datatype Config = Config(suite: Suite, json: JsonCodec, identity: AgentIdentity, logged: bool)

  datatype Env = Env(nonce: Option<Bytes>, writes: nat)

  datatype State = State(
    policy: OwnerPolicy,
    channels: set<Bytes>,
    pending: map<nat, PendingAsk>,
    nextAsk: nat,
    audit: seq<AuditEntry>)

  // --- What each operation does --------------------------------------------------------------

  /** Append `entry`, unless the file it also goes to refuses it. */
  function Record(cfg: Config, s: State, entry: AuditEntry, writes: nat): (State, Result<(), OwnerError>) {
    if cfg.logged && writes == 0 then (s, Err(AuditFailed))
    else (s.(audit := s.audit + [entry]), Ok(()))
  }

  function IssueFor(cfg: Config, s: State, request: InviteRequest, now: nat, env: Env): Result<Bytes, IdentityError> {
    Grant.Issue(cfg.suite, cfg.json, cfg.identity, request.channel, request.inviteeName, request.action, Member,
                now + s.policy.grantSeconds, env.nonce)
  }

  function GrantNow(cfg: Config, s: State, request: InviteRequest, decidedBy: DecidedBy, askId: Option<nat>, now: nat,
                    env: Env)
    : (State, Result<Bytes, OwnerError>)
  {
    var grant := IssueFor(cfg, s, request, now, env);
    if grant.Err? then (s, Err(GrantFailed(grant.error))) else
    var entry := AuditEntry(now, WasGranted, decidedBy, request, askId, Some(now + s.policy.grantSeconds));
    var (s', recorded) := Record(cfg, s, entry, env.writes);
    if recorded.Err? then (s', Err(recorded.error)) else (s', Ok(grant.value))
  }

  function Request(cfg: Config, s: State, request: InviteRequest, now: nat, env: Env)
    : (State, Result<Outcome, OwnerError>)
  {
    var (decision, decidedBy) := s.policy.Decide(request);
    if request.channel !in s.channels then
      Refuse(cfg, s, request, NotHeld, now, env)
    else if decision == Allow then
      var (s', granted) := GrantNow(cfg, s, request, decidedBy, None, now, env);
      (s', if granted.Err? then Err(granted.error) else Ok(Granted(granted.value)))
    else if decision == Block then
      Refuse(cfg, s, request, decidedBy, now, env)
    else
      var id := s.nextAsk;
      var expiresAt := now + s.policy.askTimeoutSeconds;
      var entry := AuditEntry(now, WasAsked, decidedBy, request, Some(id), None);
      var (s', recorded) := Record(cfg, s.(nextAsk := id + 1), entry, env.writes);
      if recorded.Err? then (s', Err(recorded.error))
      else (s'.(pending := s'.pending[id := PendingAsk(id, request, now, expiresAt)]), Ok(Pending(id, expiresAt)))
  }

  function Refuse(cfg: Config, s: State, request: InviteRequest, decidedBy: DecidedBy, now: nat, env: Env)
    : (State, Result<Outcome, OwnerError>)
  {
    var (s', recorded) := Record(cfg, s, AuditEntry(now, WasRefused, decidedBy, request, None, None), env.writes);
    (s', if recorded.Err? then Err(recorded.error) else Ok(Refused(decidedBy)))
  }

  function Min(a: nat, b: nat): nat {
    if a < b then a else b
  }

  /** The caller's own deadline cuts an ask's expiry down, and never extends it. */
  function RequestUntil(cfg: Config, s: State, request: InviteRequest, now: nat, deadline: nat, env: Env)
    : (State, Result<Outcome, OwnerError>)
  {
    var (s', r) := Request(cfg, s, request, now, env);
    if r.Err? || !r.value.Pending? then (s', r) else
    var id, expiresAt := r.value.askId, Min(r.value.expiresAt, deadline);
    var cut := if id in s'.pending then s'.pending[id := s'.pending[id].(expiresAt := expiresAt)] else s'.pending;
    (s'.(pending := cut), Ok(Pending(id, expiresAt)))
  }

  lemma {:induction false} LeastWitness(keys: set<nat>) returns (m: nat)
    requires keys != {}
    ensures m in keys && forall k :: k in keys ==> m <= k
    decreases keys
  {
    m :| m in keys;
    if keys != {m} {
      var n := LeastWitness(keys - {m});
      assert forall k :: k in keys ==> k == m || k in keys - {m};
      m := if n < m then n else m;
    } else {
      assert forall k :: k in keys ==> k == m;
    }
  }

  lemma {:induction false} HasLeast(keys: set<nat>)
    requires keys != {}
    ensures exists m :: m in keys && forall k :: k in keys ==> m <= k
  {
    var m := LeastWitness(keys);
  }

  function Least(keys: set<nat>): (m: nat)
    requires keys != {}
    ensures m in keys && forall k :: k in keys ==> m <= k
  {
    HasLeast(keys);
    var m :| m in keys && forall k :: k in keys ==> m <= k;
    m
  }

  predicate Increasing(ids: seq<nat>) {
    forall i, j :: 0 <= i < j < |ids| ==> ids[i] < ids[j]
  }

  /** The order a `BTreeMap` iterates in. */
  function Ascending(keys: set<nat>): (ids: seq<nat>)
    ensures forall k :: k in ids <==> k in keys
    ensures Increasing(ids)
    decreases keys
  {
    if keys == {} then [] else
    var m := Least(keys);
    var rest := Ascending(keys - {m});
    assert forall i :: 0 <= i < |rest| ==> rest[i] in rest;
    [m] + rest
  }

  function LapsedIds(pending: map<nat, PendingAsk>, now: nat): (ids: seq<nat>)
    ensures forall id :: id in ids <==> id in pending && now >= pending[id].expiresAt
    ensures Increasing(ids)
  {
    Ascending(set id | id in pending && now >= pending[id].expiresAt)
  }

  function TimeoutEntry(ask: PendingAsk, id: nat, now: nat): AuditEntry {
    AuditEntry(now, WasDenied, ByTimeout, ask.request, Some(id), None)
  }

  /** A lapsed ask leaves `pending` before its denial is recorded. */
  function ExpireOne(cfg: Config, s: State, id: nat, now: nat, writes: nat): (State, Result<PendingAsk, OwnerError>)
    requires id in s.pending
  {
    var ask := s.pending[id];
    var (s', recorded) := Record(cfg, s.(pending := s.pending - {id}), TimeoutEntry(ask, id, now), writes);
    (s', if recorded.Err? then Err(recorded.error) else Ok(ask))
  }

  function Less(writes: nat): nat {
    if writes == 0 then 0 else writes - 1
  }

  lemma LaterIds(ids: seq<nat>)
    requires Increasing(ids) && ids != []
    ensures ids[0] in ids && Increasing(ids[1..]) && forall id :: id in ids[1..] ==> id in ids && id != ids[0]
  {
  }

  function ExpireEach(cfg: Config, s: State, ids: seq<nat>, now: nat, writes: nat, denied: seq<PendingAsk>)
    : (State, Result<seq<PendingAsk>, OwnerError>)
    requires Increasing(ids) && forall id :: id in ids ==> id in s.pending
    decreases |ids|
  {
    if ids == [] then (s, Ok(denied)) else
    var (s', one) := ExpireOne(cfg, s, ids[0], now, writes);
    if one.Err? then (s', Err(one.error))
    else
      assert forall k :: k in ids[1..] ==> k in ids && k != ids[0];
      ExpireEach(cfg, s', ids[1..], now, Less(writes), denied + [one.value])
  }

  function Expire(cfg: Config, s: State, now: nat, env: Env): (State, Result<seq<PendingAsk>, OwnerError>) {
    ExpireEach(cfg, s, LapsedIds(s.pending, now), now, env.writes, [])
  }

  /** A live ask is taken out for good; a lapsed one sweeps every lapsed ask instead. */
  function TakeLive(cfg: Config, s: State, id: nat, now: nat, env: Env): (State, Result<PendingAsk, OwnerError>) {
    if id !in s.pending then (s, Err(UnknownAsk(id)))
    else if now >= s.pending[id].expiresAt then
      var (s', swept) := Expire(cfg, s, now, env);
      (s', Err(if swept.Err? then swept.error else Expired(id)))
    else (s.(pending := s.pending - {id}), Ok(s.pending[id]))
  }

  function Approve(cfg: Config, s: State, id: nat, now: nat, env: Env): (State, Result<Bytes, OwnerError>) {
    var (s', taken) := TakeLive(cfg, s, id, now, env);
    if taken.Err? then (s', Err(taken.error))
    else GrantNow(cfg, s', taken.value.request, ByOwner, Some(id), now, env)
  }

  function Deny(cfg: Config, s: State, id: nat, now: nat, env: Env): (State, Result<(), OwnerError>) {
    var (s', taken) := TakeLive(cfg, s, id, now, env);
    if taken.Err? then (s', Err(taken.error))
    else Record(cfg, s', AuditEntry(now, WasDenied, ByOwner, taken.value.request, Some(id), None), env.writes)
  }
}
