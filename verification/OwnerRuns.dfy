/**
 What holds over every run of an owner: any commands in any order, at any times, with any audit
 write failing and any grant refused.
 */
module OwnerRuns {
  import opened Wrappers
  import opened Text
  import opened Identity
  import opened Grant
  import opened OwnerSpec

  /** One call on the owner. A request by a caller that stops waiting carries its deadline. */
  datatype Command =
    | DoRequest(request: InviteRequest, now: nat, deadline: Option<nat>, env: Env)
    | DoApprove(id: nat, now: nat, env: Env)
    | DoDeny(id: nat, now: nat, env: Env)
    | DoExpire(now: nat, env: Env)
    | DoHold(channel: Bytes)
    | DoRelease(channel: Bytes)
    | DoHoldOnly(held: set<Bytes>)
    | DoSetPolicy(policy: OwnerPolicy)

  function Step(cfg: Config, s: State, c: Command): State {
    match c
    case DoRequest(request, now, deadline, env) =>
      if deadline.Some? then RequestUntil(cfg, s, request, now, deadline.value, env).0
      else Request(cfg, s, request, now, env).0
    case DoApprove(id, now, env) => Approve(cfg, s, id, now, env).0
    case DoDeny(id, now, env) => Deny(cfg, s, id, now, env).0
    case DoExpire(now, env) => Expire(cfg, s, now, env).0
    case DoHold(channel) => s.(channels := s.channels + {channel})
    case DoRelease(channel) => s.(channels := s.channels - {channel})
    case DoHoldOnly(held) => s.(channels := held)
    case DoSetPolicy(policy) => s.(policy := policy)
  }

  function RunFrom(cfg: Config, s: State, cs: seq<Command>): State {
    if cs == [] then s else Step(cfg, RunFrom(cfg, s, cs[..|cs| - 1]), cs[|cs| - 1])
  }

  function Run(cfg: Config, policy: OwnerPolicy, cs: seq<Command>): State {
    RunFrom(cfg, State(policy, {}, map[], 1, []), cs)
  }

  // --- Reading the log -----------------------------------------------------------------------

  /** The ids of the audited asks, oldest first. */
  function AskedIds(audit: seq<AuditEntry>): seq<nat> {
    if audit == [] then [] else
    var e := audit[|audit| - 1];
    AskedIds(audit[..|audit| - 1]) + if e.verdict == WasAsked && e.askId.Some? then [e.askId.value] else []
  }

  /** The ids of the audited answers: granted or denied by the owner, or timed out. */
  function AnsweredIds(audit: seq<AuditEntry>): seq<nat> {
    if audit == [] then [] else
    var e := audit[|audit| - 1];
    AnsweredIds(audit[..|audit| - 1]) + if e.verdict != WasAsked && e.askId.Some? then [e.askId.value] else []
  }

  ghost function Ids(ids: seq<nat>): set<nat> {
    set id | id in ids
  }

  /** Every audited ask is waiting, answered once, or lost, and only one of these. */
  ghost predicate Accounted(s: State, lost: set<nat>) {
    && Increasing(AskedIds(s.audit)) && (forall id :: id in AskedIds(s.audit) ==> id < s.nextAsk)
    && Distinct(AnsweredIds(s.audit))
    && Ids(AskedIds(s.audit)) == s.pending.Keys + Ids(AnsweredIds(s.audit)) + lost
    && s.pending.Keys !! Ids(AnsweredIds(s.audit)) !! lost
  }

  /** The ask, if any, whose answer failed: it left `pending` and the log will never answer it. */
  function LostByExpire(cfg: Config, s: State, now: nat, env: Env): set<nat> {
    var ids := LapsedIds(s.pending, now);
    if cfg.logged && env.writes < |ids| then {ids[env.writes]} else {}
  }

  function Lost(cfg: Config, s: State, c: Command): set<nat> {
    match c
    case DoApprove(id, now, env) =>
      if id !in s.pending then {}
      else if now >= s.pending[id].expiresAt then LostByExpire(cfg, s, now, env)
      else if IssueFor(cfg, s, s.pending[id].request, now, env).Err? || (cfg.logged && env.writes == 0) then {id}
      else {}
    case DoDeny(id, now, env) =>
      if id !in s.pending then {}
      else if now >= s.pending[id].expiresAt then LostByExpire(cfg, s, now, env)
      else if cfg.logged && env.writes == 0 then {id}
      else {}
    case DoExpire(now, env) => LostByExpire(cfg, s, now, env)
    case _ => {}
  }

  function RunLost(cfg: Config, policy: OwnerPolicy, cs: seq<Command>): set<nat> {
    if cs == [] then {} else
    var before := cs[..|cs| - 1];
    RunLost(cfg, policy, before) + Lost(cfg, Run(cfg, policy, before), cs[|cs| - 1])
  }

  // --- Accounting ----------------------------------------------------------------------------

  lemma {:induction false} LogGrows(audit: seq<AuditEntry>, e: AuditEntry)
    ensures AskedIds(audit + [e])
            == AskedIds(audit) + if e.verdict == WasAsked && e.askId.Some? then [e.askId.value] else []
    ensures AnsweredIds(audit + [e])
            == AnsweredIds(audit) + if e.verdict != WasAsked && e.askId.Some? then [e.askId.value] else []
  {
    assert (audit + [e])[..|audit|] == audit;
  }

  lemma {:induction false} AskAccounted(s: State, lost: set<nat>, e: AuditEntry, ask: PendingAsk)
    requires Accounted(s, lost) && e.verdict == WasAsked && e.askId == Some(s.nextAsk)
    ensures Accounted(s.(audit := s.audit + [e], nextAsk := s.nextAsk + 1, pending := s.pending[s.nextAsk := ask]),
                      lost)
  {
    LogGrows(s.audit, e);
    var asked, answered := AskedIds(s.audit), AnsweredIds(s.audit);
    assert answered + [] == answered;
    OneMore(asked, s.nextAsk);
    assert s.nextAsk !in Ids(asked);
    assert s.pending[s.nextAsk := ask].Keys == s.pending.Keys + {s.nextAsk};
    hide AskedIds, AnsweredIds;
  }

  lemma OneMore(ids: seq<nat>, id: nat)
    requires Increasing(ids) && forall k :: k in ids ==> k < id
    ensures Increasing(ids + [id]) && (forall k :: k in ids + [id] ==> k < id + 1)
    ensures Ids(ids + [id]) == Ids(ids) + {id}
  {
    assert forall i :: 0 <= i < |ids| ==> ids[i] in ids;
  }

  lemma {:induction false} AnswerAccounted(s: State, lost: set<nat>, e: AuditEntry, id: nat)
    requires Accounted(s, lost) && id in s.pending && e.verdict != WasAsked && e.askId == Some(id)
    ensures Accounted(s.(pending := s.pending - {id}, audit := s.audit + [e]), lost)
  {
    LogGrows(s.audit, e);
    var answered := AnsweredIds(s.audit);
    assert id !in Ids(answered);
    assert forall i :: 0 <= i < |answered| ==> answered[i] in answered;
    assert Ids(answered + [id]) == Ids(answered) + {id};
  }

  lemma {:induction false} OtherAccounted(s: State, lost: set<nat>, e: AuditEntry)
    requires Accounted(s, lost) && e.askId == None
    ensures Accounted(s.(audit := s.audit + [e]), lost)
  {
    LogGrows(s.audit, e);
    assert AskedIds(s.audit) + [] == AskedIds(s.audit) && AnsweredIds(s.audit) + [] == AnsweredIds(s.audit);
  }

  lemma {:induction false} ExpireAccounted(cfg: Config, s: State, ids: seq<nat>, now: nat, writes: nat,
                                           denied: seq<PendingAsk>, lost: set<nat>)
    requires Increasing(ids) && forall id :: id in ids ==> id in s.pending
    requires Accounted(s, lost)
    ensures Accounted(ExpireEach(cfg, s, ids, now, writes, denied).0,
                      lost + if cfg.logged && writes < |ids| then {ids[writes]} else {})
    decreases |ids|
  {
    hide Accounted, ExpireOne;
    if ids != [] {
      LaterIds(ids);
      ExpireOneAccounted(cfg, s, ids[0], now, writes, lost);
      var (s', one) := ExpireOne(cfg, s, ids[0], now, writes);
      if one.Ok? {
        ExpireAccounted(cfg, s', ids[1..], now, Less(writes), denied + [one.value], lost);
      }
    }
    assert lost + {} == lost;
  }

  lemma {:induction false} ExpireOneAccounted(cfg: Config, s: State, id: nat, now: nat, writes: nat, lost: set<nat>)
    requires id in s.pending && Accounted(s, lost)
    ensures var (s', one) := ExpireOne(cfg, s, id, now, writes);
            && s'.pending == s.pending - {id} && (one.Err? <==> cfg.logged && writes == 0)
            && Accounted(s', if one.Ok? then lost else lost + {id})
  {
    AnswerAccounted(s, lost, TimeoutEntry(s.pending[id], id, now), id);
  }

  lemma {:induction false} TakeAccounted(cfg: Config, s: State, id: nat, now: nat, env: Env, lost: set<nat>)
    requires Accounted(s, lost) && id in s.pending && now >= s.pending[id].expiresAt
    ensures Accounted(TakeLive(cfg, s, id, now, env).0, lost + LostByExpire(cfg, s, now, env))
  {
    ExpireAccounted(cfg, s, LapsedIds(s.pending, now), now, env.writes, [], lost);
  }

  /** An ask whose record failed leaves a gap in the numbers. */
  lemma SkipAccounted(s: State, lost: set<nat>)
    requires Accounted(s, lost)
    ensures Accounted(s.(nextAsk := s.nextAsk + 1), lost)
  {
  }

  lemma {:induction false} RequestAccounted(cfg: Config, s: State, request: InviteRequest, now: nat, env: Env,
                                            lost: set<nat>)
    requires Accounted(s, lost)
    ensures Accounted(Request(cfg, s, request, now, env).0, lost)
  {
    hide Accounted;
    var (decision, decidedBy) := s.policy.Decide(request);
    SkipAccounted(s, lost);
    if request.channel !in s.channels {
      OtherAccounted(s, lost, AuditEntry(now, WasRefused, NotHeld, request, None, None));
    } else if decision == Allow {
      OtherAccounted(s, lost, AuditEntry(now, WasGranted, decidedBy, request, None, Some(now + s.policy.grantSeconds)));
    } else if decision == Block {
      OtherAccounted(s, lost, AuditEntry(now, WasRefused, decidedBy, request, None, None));
    } else {
      AskAccounted(s, lost, AuditEntry(now, WasAsked, decidedBy, request, Some(s.nextAsk), None),
                   PendingAsk(s.nextAsk, request, now, now + s.policy.askTimeoutSeconds));
    }
  }

  /** Channels, rules and expiries are no matter for the books. */
  lemma CutAccounted(s: State, t: State, lost: set<nat>)
    requires Accounted(s, lost) && t.pending.Keys == s.pending.Keys && t.audit == s.audit && t.nextAsk == s.nextAsk
    ensures Accounted(t, lost)
  {
  }

  lemma CutIs(cfg: Config, s: State, request: InviteRequest, now: nat, deadline: nat, env: Env)
    ensures var (s1, s2) := (Request(cfg, s, request, now, env).0, RequestUntil(cfg, s, request, now, deadline, env).0);
            s2.pending.Keys == s1.pending.Keys && s2.audit == s1.audit && s2.nextAsk == s1.nextAsk
  {
  }

  lemma {:induction false} LoseAccounted(s: State, lost: set<nat>, id: nat)
    requires Accounted(s, lost) && id in s.pending
    ensures Accounted(s.(pending := s.pending - {id}), lost + {id})
  {
  }

  function ApprovalEntry(s: State, id: nat, now: nat): AuditEntry
    requires id in s.pending
  {
    AuditEntry(now, WasGranted, ByOwner, s.pending[id].request, Some(id), Some(now + s.policy.grantSeconds))
  }

  function DenialEntry(s: State, id: nat, now: nat): AuditEntry
    requires id in s.pending
  {
    AuditEntry(now, WasDenied, ByOwner, s.pending[id].request, Some(id), None)
  }

  /** An answer in time takes the ask out first, and logs it only when nothing fails. */
  lemma {:induction false} AnswerInTimeIs(cfg: Config, s: State, id: nat, now: nat, env: Env)
    requires id in s.pending && now < s.pending[id].expiresAt
    ensures Approve(cfg, s, id, now, env).0
            == if Lost(cfg, s, DoApprove(id, now, env)) == {id} then s.(pending := s.pending - {id})
               else s.(pending := s.pending - {id}, audit := s.audit + [ApprovalEntry(s, id, now)])
    ensures Deny(cfg, s, id, now, env).0
            == if Lost(cfg, s, DoDeny(id, now, env)) == {id} then s.(pending := s.pending - {id})
               else s.(pending := s.pending - {id}, audit := s.audit + [DenialEntry(s, id, now)])
  {
  }

  lemma {:induction false} AnswerStepAccounted(cfg: Config, s: State, c: Command, lost: set<nat>)
    requires Accounted(s, lost) && (c.DoApprove? || c.DoDeny?)
    ensures Accounted(Step(cfg, s, c), lost + Lost(cfg, s, c))
  {
    hide Accounted;
    assert lost + {} == lost;
    if c.id !in s.pending {
    } else if c.now >= s.pending[c.id].expiresAt {
      TakeAccounted(cfg, s, c.id, c.now, c.env, lost);
    } else {
      AnswerInTimeIs(cfg, s, c.id, c.now, c.env);
      LoseAccounted(s, lost, c.id);
      var e := if c.DoApprove? then ApprovalEntry(s, c.id, c.now) else DenialEntry(s, c.id, c.now);
      AnswerAccounted(s, lost, e, c.id);
    }
  }

  lemma {:induction false} StepAccounted(cfg: Config, s: State, c: Command, lost: set<nat>)
    requires Accounted(s, lost)
    ensures Accounted(Step(cfg, s, c), lost + Lost(cfg, s, c))
  {
    hide Accounted, Request, RequestUntil, Approve, Deny, Expire;
    assert lost + {} == lost;
    match c
    case DoRequest(request, now, deadline, env) =>
      RequestAccounted(cfg, s, request, now, env, lost);
      if deadline.Some? {
        CutIs(cfg, s, request, now, deadline.value, env);
        CutAccounted(Request(cfg, s, request, now, env).0, Step(cfg, s, c), lost);
      }
    case DoApprove(_, _, _) => AnswerStepAccounted(cfg, s, c, lost);
    case DoDeny(_, _, _) => AnswerStepAccounted(cfg, s, c, lost);
    case DoExpire(now, env) => SweepAccounted(cfg, s, now, env, lost);
    case _ => CutAccounted(s, Step(cfg, s, c), lost);
  }

  lemma {:induction false} SweepAccounted(cfg: Config, s: State, now: nat, env: Env, lost: set<nat>)
    requires Accounted(s, lost)
    ensures Accounted(Expire(cfg, s, now, env).0, lost + LostByExpire(cfg, s, now, env))
  {
    hide Accounted;
    ExpireAccounted(cfg, s, LapsedIds(s.pending, now), now, env.writes, [], lost);
  }

  /** The log accounts for every ask of every run: audited ask ids strictly increase, no ask is
      answered twice, and the audited asks are exactly those still pending, those answered, and
      those whose one answer failed. */
  lemma {:induction false} RunAccounted(cfg: Config, policy: OwnerPolicy, cs: seq<Command>)
    ensures Accounted(Run(cfg, policy, cs), RunLost(cfg, policy, cs))
    decreases |cs|
  {
    if cs != [] {
      var before, c := cs[..|cs| - 1], cs[|cs| - 1];
      RunAccounted(cfg, policy, before);
      StepAccounted(cfg, Run(cfg, policy, before), c, RunLost(cfg, policy, before));
    }
  }

  /** Pending and answered make up the asked exactly when no answer was lost. */
  lemma {:induction false} NothingLostExactly(cfg: Config, policy: OwnerPolicy, cs: seq<Command>)
    ensures var s := Run(cfg, policy, cs);
            Ids(AskedIds(s.audit)) == s.pending.Keys + Ids(AnsweredIds(s.audit)) <==> RunLost(cfg, policy, cs) == {}
  {
    RunAccounted(cfg, policy, cs);
    hide Run, RunLost, AskedIds, AnsweredIds, Ids;
  }

  /** A run in which an answer is lost: a channel is held, the rules say to ask, the human approves in
      time, and the random source fails. The ask is neither waiting nor answered, and stays so. */
  lemma {:induction false} AnAnswerIsLost(cfg: Config, policy: OwnerPolicy, request: InviteRequest, env: Env)
    requires policy.Decide(request).0 == Ask && policy.askTimeoutSeconds > 0 && env.nonce.None? && env.writes > 0
    ensures var cs := [DoHold(request.channel), DoRequest(request, 0, None, env), DoApprove(1, 0, env)];
            var s := Run(cfg, policy, cs);
            && RunLost(cfg, policy, cs) == {1} && AskedIds(s.audit) == [1]
            && 1 !in s.pending && 1 !in AnsweredIds(s.audit)
  {
    var hold, ask, approve := DoHold(request.channel), DoRequest(request, 0, None, env), DoApprove(1, 0, env);
    var s0 := State(policy, {}, map[], 1, []);
    var s1 := s0.(channels := {request.channel});
    var entry := AuditEntry(0, WasAsked, policy.Decide(request).1, request, Some(1), None);
    var s2 := s1.(nextAsk := 2, audit := [entry],
                  pending := map[1 := PendingAsk(1, request, 0, policy.askTimeoutSeconds)]);
    hide OwnerPolicy.Decide;
    assert [hold][..0] == [] && [hold, ask][..1] == [hold] && [hold, ask, approve][..2] == [hold, ask];
    assert s0.channels + {request.channel} == {request.channel};
    assert Run(cfg, policy, []) == s0 && Run(cfg, policy, [hold]) == s1;
    assert [] + [entry] == [entry];
    assert Step(cfg, s1, ask) == s2;
    assert Run(cfg, policy, [hold, ask]) == s2;
    LostUnsigned(cfg, s2, env);
    assert RunLost(cfg, policy, [hold]) == {} && RunLost(cfg, policy, [hold, ask]) == {};
    assert [entry][..0] == [];
    assert AskedIds([entry]) == [1] && AnsweredIds([entry]) == [];
  }

  lemma LostUnsigned(cfg: Config, s: State, env: Env)
    requires 1 in s.pending && 0 < s.pending[1].expiresAt && env.nonce.None?
    ensures Step(cfg, s, DoApprove(1, 0, env)) == s.(pending := s.pending - {1})
    ensures Lost(cfg, s, DoApprove(1, 0, env)) == {1}
  {
  }

  /** A call in which no write fails and every grant it may need can be signed. */
  predicate Smooth(cfg: Config, s: State, c: Command) {
    match c
    case DoApprove(id, now, env) =>
      && (cfg.logged ==> env.writes > |s.pending|)
      && (id in s.pending ==> IssueFor(cfg, s, s.pending[id].request, now, env).Ok?)
    case DoDeny(_, _, env) => cfg.logged ==> env.writes > |s.pending|
    case DoExpire(_, env) => cfg.logged ==> env.writes > |s.pending|
    case _ => true
  }

  lemma {:induction false} AscendingSize(keys: set<nat>)
    ensures |Ascending(keys)| == |keys|
    decreases keys
  {
    if keys != {} {
      AscendingSize(keys - {Least(keys)});
    }
  }

  lemma {:induction false} SmoothLosesNothing(cfg: Config, s: State, c: Command)
    requires Smooth(cfg, s, c)
    ensures Lost(cfg, s, c) == {}
  {
    if c.DoApprove? || c.DoDeny? || c.DoExpire? {
      var lapsed := set id | id in s.pending && c.now >= s.pending[id].expiresAt;
      AscendingSize(lapsed);
      Fits(lapsed, s.pending.Keys);
    }
  }

  lemma {:induction false} Fits(a: set<nat>, b: set<nat>)
    requires a <= b
    ensures |a| <= |b|
  {
    assert b == a + (b - a);
  }

  /** When nothing fails, nothing is lost: asked is exactly pending plus answered. */
  lemma {:induction false} SmoothRunsPartition(cfg: Config, policy: OwnerPolicy, cs: seq<Command>)
    requires forall k :: 0 <= k < |cs| ==> Smooth(cfg, Run(cfg, policy, cs[..k]), cs[k])
    ensures var s := Run(cfg, policy, cs);
            && Ids(AskedIds(s.audit)) == s.pending.Keys + Ids(AnsweredIds(s.audit))
            && s.pending.Keys !! Ids(AnsweredIds(s.audit)) && Distinct(AnsweredIds(s.audit))
  {
    RunAccounted(cfg, policy, cs);
    SmoothRunLosesNothing(cfg, policy, cs);
  }

  lemma {:induction false} SmoothRunLosesNothing(cfg: Config, policy: OwnerPolicy, cs: seq<Command>)
    requires forall k :: 0 <= k < |cs| ==> Smooth(cfg, Run(cfg, policy, cs[..k]), cs[k])
    ensures RunLost(cfg, policy, cs) == {}
    decreases |cs|
  {
    if cs != [] {
      var before := cs[..|cs| - 1];
      forall k | 0 <= k < |before| ensures Smooth(cfg, Run(cfg, policy, before[..k]), before[k]) {
        assert before[..k] == cs[..k];
      }
      SmoothRunLosesNothing(cfg, policy, before);
      SmoothLosesNothing(cfg, Run(cfg, policy, before), cs[|cs| - 1]);
    }
  }

  // --- Finality ------------------------------------------------------------------------------

  /** An id that was handed out and is no longer waiting. */
  predicate Closed(s: State, id: nat) {
    id < s.nextAsk && id !in s.pending
  }

  /** `s'` came from `s` without the log saying anything more about `id`. */
  predicate SilentOn(s: State, s': State, id: nat) {
    && |s.audit| <= |s'.audit| && s'.audit[..|s.audit|] == s.audit
    && forall k :: |s.audit| <= k < |s'.audit| ==> s'.audit[k].askId != Some(id)
  }

  lemma {:induction false} ExpireSilent(cfg: Config, s: State, ids: seq<nat>, now: nat, writes: nat,
                                        denied: seq<PendingAsk>, id: nat)
    requires Increasing(ids) && forall k :: k in ids ==> k in s.pending
    requires Closed(s, id)
    ensures var s' := ExpireEach(cfg, s, ids, now, writes, denied).0; Closed(s', id) && SilentOn(s, s', id)
    decreases |ids|
  {
    if ids != [] {
      assert ids[0] in ids;
      var (s', one) := ExpireOne(cfg, s, ids[0], now, writes);
      if one.Ok? {
        assert forall k :: k in ids[1..] ==> k in ids && k != ids[0];
        ExpireSilent(cfg, s', ids[1..], now, Less(writes), denied + [one.value], id);
        var s'' := ExpireEach(cfg, s', ids[1..], now, Less(writes), denied + [one.value]).0;
        assert s''.audit[..|s.audit|] == s''.audit[..|s'.audit|][..|s.audit|];
      }
    }
  }

  lemma {:induction false} RequestSilent(cfg: Config, s: State, request: InviteRequest, now: nat, env: Env, id: nat)
    requires Closed(s, id)
    ensures var s' := Request(cfg, s, request, now, env).0; Closed(s', id) && SilentOn(s, s', id)
  {
  }

  lemma {:induction false} TakeSilent(cfg: Config, s: State, ask: nat, now: nat, env: Env, id: nat)
    requires Closed(s, id)
    ensures var (s', r) := TakeLive(cfg, s, ask, now, env);
            Closed(s', id) && SilentOn(s, s', id) && (r.Ok? ==> ask != id && s'.audit == s.audit)
  {
    ExpireSilent(cfg, s, LapsedIds(s.pending, now), now, env.writes, [], id);
    hide LapsedIds;
  }

  lemma {:induction false} AnswerSilent(cfg: Config, s: State, ask: nat, now: nat, env: Env, id: nat)
    requires Closed(s, id)
    ensures var s' := Approve(cfg, s, ask, now, env).0; Closed(s', id) && SilentOn(s, s', id)
    ensures var s' := Deny(cfg, s, ask, now, env).0; Closed(s', id) && SilentOn(s, s', id)
  {
    TakeSilent(cfg, s, ask, now, env, id);
    hide IssueFor, TakeLive;
  }

  lemma {:induction false} StepSilent(cfg: Config, s: State, c: Command, id: nat)
    requires Closed(s, id)
    ensures Closed(Step(cfg, s, c), id) && SilentOn(s, Step(cfg, s, c), id)
  {
    match c
    case DoRequest(request, now, deadline, env) => RequestSilent(cfg, s, request, now, env, id);
    case DoApprove(ask, now, env) => AnswerSilent(cfg, s, ask, now, env, id);
    case DoDeny(ask, now, env) => AnswerSilent(cfg, s, ask, now, env, id);
    case DoExpire(now, env) => ExpireSilent(cfg, s, LapsedIds(s.pending, now), now, env.writes, [], id);
    case _ =>
  }

  /** Once an ask has left `pending`, by whichever answer and however that answer failed, it never
      waits again, the log never mentions it again, and every later answer is refused. */
  lemma {:induction false} ClosedForever(cfg: Config, s: State, cs: seq<Command>, id: nat, now: nat, env: Env)
    requires Closed(s, id)
    ensures var s' := RunFrom(cfg, s, cs);
            && Closed(s', id) && SilentOn(s, s', id)
            && Approve(cfg, s', id, now, env) == (s', Err(UnknownAsk(id)))
            && Deny(cfg, s', id, now, env) == (s', Err(UnknownAsk(id)))
    decreases |cs|
  {
    if cs != [] {
      var before, c := cs[..|cs| - 1], cs[|cs| - 1];
      ClosedForever(cfg, s, before, id, now, env);
      var s1 := RunFrom(cfg, s, before);
      StepSilent(cfg, s1, c, id);
      var s2 := Step(cfg, s1, c);
      assert s2.audit[..|s.audit|] == s2.audit[..|s1.audit|][..|s.audit|];
    }
  }

  /** Approving or denying a waiting ask in time closes it, even when signing or the audit write
      then fails. */
  lemma {:induction false} AnswerCloses(cfg: Config, s: State, id: nat, now: nat, env: Env)
    requires id in s.pending && id < s.nextAsk && now < s.pending[id].expiresAt
    ensures Closed(Approve(cfg, s, id, now, env).0, id) && Closed(Deny(cfg, s, id, now, env).0, id)
  {
  }

  // --- Expiry --------------------------------------------------------------------------------

  /** How many of `ids` a sweep records, and how many it removes. */
  function Recorded(cfg: Config, ids: seq<nat>, writes: nat): (n: nat)
    ensures n <= |ids|
  {
    if cfg.logged && writes < |ids| then writes else |ids|
  }

  function Removed(cfg: Config, ids: seq<nat>, writes: nat): (n: nat)
    ensures n <= |ids|
  {
    if cfg.logged && writes < |ids| then writes + 1 else |ids|
  }

  function Asks(pending: map<nat, PendingAsk>, ids: seq<nat>): seq<PendingAsk>
    requires forall id :: id in ids ==> id in pending
  {
    if ids == [] then [] else [pending[ids[0]]] + Asks(pending, ids[1..])
  }

  function Timeouts(asks: seq<PendingAsk>, ids: seq<nat>, now: nat): seq<AuditEntry>
    requires |asks| == |ids|
  {
    if ids == [] then [] else [TimeoutEntry(asks[0], ids[0], now)] + Timeouts(asks[1..], ids[1..], now)
  }

  lemma {:induction false} AsksSize(pending: map<nat, PendingAsk>, ids: seq<nat>)
    requires forall id :: id in ids ==> id in pending
    ensures |Asks(pending, ids)| == |ids|
  {
    if ids != [] { AsksSize(pending, ids[1..]); }
  }

  lemma {:induction false} AsksWithout(pending: map<nat, PendingAsk>, ids: seq<nat>, gone: nat)
    requires gone !in ids && forall id :: id in ids ==> id in pending
    ensures Asks(pending - {gone}, ids) == Asks(pending, ids)
  {
    if ids != [] {
      assert ids[0] in ids;
      assert gone !in ids[1..];
      AsksWithout(pending, ids[1..], gone);
    }
  }

  /** What a sweep does, in closed form: the first denials are recorded in id order; when a write
      fails, one more ask is removed without a record and the rest stay. */
  lemma {:induction false} ExpireEachIs(cfg: Config, s: State, ids: seq<nat>, now: nat, writes: nat,
                                        denied: seq<PendingAsk>)
    requires Increasing(ids) && forall id :: id in ids ==> id in s.pending
    ensures var recorded := ids[..Recorded(cfg, ids, writes)];
            var asks := Asks(s.pending, recorded);
            && |asks| == |recorded|
            && ExpireEach(cfg, s, ids, now, writes, denied)
               == (s.(pending := s.pending - Ids(ids[..Removed(cfg, ids, writes)]),
                      audit := s.audit + Timeouts(asks, recorded, now)),
                   if |recorded| < |ids| then Err(AuditFailed) else Ok(denied + asks))
    decreases |ids|
  {
    hide Increasing;
    var n, m := Recorded(cfg, ids, writes), Removed(cfg, ids, writes);
    AsksSize(s.pending, ids[..n]);
    if ids == [] {
      assert s.pending - Ids(ids[..m]) == s.pending;
      assert s.audit + Timeouts(Asks(s.pending, []), [], now) == s.audit;
      assert denied + Asks(s.pending, []) == denied;
    } else {
      var id, rest := ids[0], ids[1..];
      LaterIds(ids);
      var (s1, one) := ExpireOne(cfg, s, id, now, writes);
      if one.Err? {
        assert Ids(ids[..1]) == {id};
        assert ids[..0] == [];
        assert s.audit + Timeouts(Asks(s.pending, []), [], now) == s.audit;
      } else {
        ExpireEachIs(cfg, s1, rest, now, Less(writes), denied + [one.value]);
        ExpireEachStep(cfg, s, ids, now, writes, denied);
      }
    }
  }

  lemma {:induction false} ExpireEachStep(cfg: Config, s: State, ids: seq<nat>, now: nat, writes: nat,
                                          denied: seq<PendingAsk>)
    requires Increasing(ids) && ids != [] && forall id :: id in ids ==> id in s.pending
    requires cfg.logged ==> writes > 0
    ensures var (id, rest) := (ids[0], ids[1..]);
            var (n, m) := (Recorded(cfg, ids, writes), Removed(cfg, ids, writes));
            && n >= 1 && Recorded(cfg, rest, Less(writes)) == n - 1 && Removed(cfg, rest, Less(writes)) == m - 1
            && (forall k :: k in rest ==> k in ids && k != id)
            && s.pending - Ids(ids[..m]) == (s.pending - {id}) - Ids(rest[..m - 1])
            && StepsLikeHead(s, ids[..n], now, denied)
            && ids[..n][1..] == rest[..n - 1]
  {
    hide StepsLikeHead, Increasing, Ids;
    LaterIds(ids);
    ExpireCounts(cfg, ids, writes);
    var n, m := Recorded(cfg, ids, writes), Removed(cfg, ids, writes);
    IncreasingPrefix(ids, n);
    HeadStep(s, ids[..n], now, denied);
    RemoveHeadFirst(s.pending, ids, m);
  }

  lemma ExpireCounts(cfg: Config, ids: seq<nat>, writes: nat)
    requires ids != [] && (cfg.logged ==> writes > 0)
    ensures var (n, m) := (Recorded(cfg, ids, writes), Removed(cfg, ids, writes));
            && n >= 1 && m >= 1
            && Recorded(cfg, ids[1..], Less(writes)) == n - 1 && Removed(cfg, ids[1..], Less(writes)) == m - 1
  {
  }

  lemma IncreasingPrefix(ids: seq<nat>, n: nat)
    requires Increasing(ids) && n <= |ids|
    ensures Increasing(ids[..n]) && forall k :: k in ids[..n] ==> k in ids
  {
  }

  lemma RemoveHeadFirst(pending: map<nat, PendingAsk>, ids: seq<nat>, m: nat)
    requires 1 <= m <= |ids|
    ensures pending - Ids(ids[..m]) == (pending - {ids[0]}) - Ids(ids[1..][..m - 1])
  {
    assert ids[..m] == [ids[0]] + ids[1..][..m - 1];
    IdsOfCons(ids[0], ids[1..][..m - 1]);
    hide Ids;
  }

  lemma IdsOfCons(id: nat, rest: seq<nat>)
    ensures Ids([id] + rest) == {id} + Ids(rest)
  {
  }

  /** Taking the first of `ids` off before the rest changes neither the asks nor the entries. */
  ghost predicate StepsLikeHead(s: State, ids: seq<nat>, now: nat, denied: seq<PendingAsk>)
    requires ids != []
  {
    && (forall k :: k in ids ==> k in s.pending)
    && (forall k :: k in ids[1..] ==> k in s.pending && k != ids[0])
    && var asks, rest := Asks(s.pending, ids), Asks(s.pending - {ids[0]}, ids[1..]);
       && |asks| == |ids| && |rest| == |ids| - 1
       && s.audit + Timeouts(asks, ids, now)
          == s.audit + [TimeoutEntry(s.pending[ids[0]], ids[0], now)] + Timeouts(rest, ids[1..], now)
       && denied + asks == denied + [s.pending[ids[0]]] + rest
  }

  lemma {:induction false} HeadStep(s: State, ids: seq<nat>, now: nat, denied: seq<PendingAsk>)
    requires Increasing(ids) && ids != [] && forall id :: id in ids ==> id in s.pending
    ensures StepsLikeHead(s, ids, now, denied)
  {
    var rest := ids[1..];
    assert forall k :: k in rest ==> k in ids && k != ids[0];
    AsksWithout(s.pending, rest, ids[0]);
    AsksSize(s.pending, ids);
    AsksSize(s.pending, rest);
    assert Asks(s.pending, ids)[1..] == Asks(s.pending, rest);
  }

  /** A sweep that succeeds leaves exactly the asks that have not lapsed, returns the others in the
      order they were asked, and records a timeout for each. */
  lemma {:induction false} ExpireLeavesNoLapsed(cfg: Config, s: State, now: nat, env: Env)
    requires Expire(cfg, s, now, env).1.Ok?
    ensures var (s', r) := Expire(cfg, s, now, env);
            var ids := LapsedIds(s.pending, now);
            && s'.pending == (map id | id in s.pending && now < s.pending[id].expiresAt :: s.pending[id])
            && r.value == Asks(s.pending, ids) && |r.value| == |ids|
            && s'.audit == s.audit + Timeouts(r.value, ids, now)
  {
    var ids := LapsedIds(s.pending, now);
    ExpireEachIs(cfg, s, ids, now, env.writes, []);
    assert ids[..|ids|] == ids;
    assert [] + Asks(s.pending, ids) == Asks(s.pending, ids);
  }
}
