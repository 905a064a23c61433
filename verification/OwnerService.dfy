/**
 The owner's service: admit a signed request, decide it, and invite when it is granted.
 */
module OwnerService {
  import opened Wrappers
  import opened Text
  import opened Identity
  import opened OwnerSpec
  import opened OwnerIntake
  import Owner

  datatype TaskState = Completed | Failed | Rejected

  /** What the requester is told; the wording itself is not modelled. */
  datatype Reply =
    | NotAdmitted(reason: IntakeError)
    | Invited(invitee: Bytes, channel: Bytes)
    | InviteFailed
    | AwaitsOwner(ask: nat, until: nat)
    | RefusedBy(decidedBy: DecidedBy)
    | OwnerFailed(error: OwnerError)

  datatype Handled = Handled(state: State, task: TaskState, reply: Reply, invite: Option<(Bytes, InviteRequest)>)

  function Handle(cfg: Config, s: State, signed: Bytes, now: nat, env: Env, inviteWorks: bool): Handled {
    var admitted := Admit(cfg.suite, signed, now);
    if admitted.Err? then Handled(s, Rejected, NotAdmitted(admitted.error), None) else
    var request := admitted.value;
    var (s', outcome) := Request(cfg, s, request, now, env);
    match outcome
    case Ok(Granted(grant)) =>
      if inviteWorks then Handled(s', Completed, Invited(request.inviteeName, request.channel), Some((grant, request)))
      else Handled(s', Failed, InviteFailed, Some((grant, request)))
    case Ok(Pending(ask, until)) => Handled(s', Completed, AwaitsOwner(ask, until), None)
    case Ok(Refused(decidedBy)) => Handled(s', Rejected, RefusedBy(decidedBy), None)
    case Err(e) => Handled(s', Failed, OwnerFailed(e), None)
  }

  class OwnerExecutor {
    const owner: Owner.ChannelOwner
    var invites: seq<(Bytes, InviteRequest)>

    constructor (owner: Owner.ChannelOwner)
      ensures this.owner == owner && invites == []
    {
      this.owner := owner;
      invites := [];
    }

    /** Decides one signed request on the shared owner; each invite attempt is kept in `invites`. */
    method HandleSigned(signed: Bytes, now: nat, env: Env, inviteWorks: bool) returns (task: TaskState, reply: Reply)
      modifies this, owner
      ensures var h := Handle(owner.cfg, old(owner.View()), signed, now, env, inviteWorks);
              && owner.View() == h.state && task == h.task && reply == h.reply
              && invites == old(invites) + if h.invite.Some? then [h.invite.value] else []
    {
      var admitted := Admit(owner.cfg.suite, signed, now);
      if admitted.Err? {
        return Rejected, NotAdmitted(admitted.error);
      }
      var request := admitted.value;
      var outcome := owner.Request(request, now, env);
      match outcome {
        case Ok(Granted(grant)) =>
          invites := invites + [(grant, request)];
          if inviteWorks {
            return Completed, Invited(request.inviteeName, request.channel);
          }
          return Failed, InviteFailed;
        case Ok(Pending(ask, until)) =>
          return Completed, AwaitsOwner(ask, until);
        case Ok(Refused(decidedBy)) =>
          return Rejected, RefusedBy(decidedBy);
        case Err(e) =>
          return Failed, OwnerFailed(e);
      }
    }
  }

  /** An invite goes out exactly when an authenticated request names a held channel, the rules allow
      it, and its grant was signed and recorded; its last log entry is then that grant. */
  lemma {:induction false} InviteIffAllowed(cfg: Config, s: State, signed: Bytes, now: nat, env: Env, inviteWorks: bool)
    ensures var h := Handle(cfg, s, signed, now, env, inviteWorks);
            var admitted := Admit(cfg.suite, signed, now);
            h.invite.Some?
            <==> && admitted.Ok? && admitted.value.channel in s.channels
                 && s.policy.Decide(admitted.value).0 == Allow
                 && IssueFor(cfg, s, admitted.value, now, env).Ok?
                 && (cfg.logged ==> env.writes > 0)
    ensures var h := Handle(cfg, s, signed, now, env, inviteWorks);
            h.invite.Some? ==>
              && h.invite.value.1 == Admit(cfg.suite, signed, now).value
              && IssueFor(cfg, s, h.invite.value.1, now, env) == Ok(h.invite.value.0)
              && |h.state.audit| == |s.audit| + 1 && h.state.audit[|s.audit|].verdict == WasGranted
              && h.state.audit[|s.audit|].request == h.invite.value.1
  {
  }
}
