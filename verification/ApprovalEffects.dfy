/**
 What one segment of the approval protocol (approval_store.py, main.py) leaves behind in every reachable state: record,
 row, audit events, waiting handlers and claims, stated outright.
 */
module ApprovalEffects {
  import opened Options
  import opened Approval
  import opened ApprovalSafety
  import opened ApprovalOutcomes

  function Later(a: Time, b: Time): Time { if a > b then a else b }

  function Comments(body: Body): nat { if body.Parsed? && body.comment then 1 else 0 }

  /** Only the waiting handler is gone and the clock has moved on. */
  predicate OnlyResumed(s: State, t: State, id: nat, at: Time) {
    t == s.(clock := Later(s.clock, at), tasks := s.tasks - {id})
  }

  /** The handler has stored this record, in its row too, and appended one event. */
  predicate Stored(s: State, t: State, id: nat, at: Time, record: Record, kind: EventKind, actor: Actor) {
    t == s.(clock := Later(s.clock, at), tasks := s.tasks - {id}, record := record, row := record,
            events := s.events + [Event(kind, actor, Later(s.clock, at))])
  }

  lemma {:induction false} ReachedInv(created: Time, minutes: int, past: seq<Action>)
    ensures Inv(RunFrom(Create(created, minutes), past))
  {
    CreateIsInv(created, minutes);
    RunKeepsInv(Create(created, minutes), past);
  }

  // ---------------------------------------------------------------- creation, reads and forced expiry

  /** A new record is pending, with its deadline the given minutes ahead; a read expires it exactly from then on. */
  lemma {:induction false} NewRecordExpiresAt(created: Time, minutes: int, at: Time)
    requires minutes > 0
    ensures var s := Create(created, minutes);
            && s.record == s.row && s.record.status == Pending && s.events == [Event(CreatedEvent, "system", created)]
            && s.tasks == map[] && s.claims == []
            && (Step(s, Read(at)).record.status == Expired <==> at >= created + 60 * minutes)
            && (Step(s, Read(at)).record.status == Pending <==> at < created + 60 * minutes)
  {
  }

  lemma {:induction false} ReadOutcome(created: Time, minutes: int, past: seq<Action>, at: Time)
    ensures var s := RunFrom(Create(created, minutes), past);
            var t, now := Step(s, Read(at)), Later(s.clock, at);
            if s.record.status == Pending && now >= s.record.expiresAt then
              var r := s.record.(status := Expired, lastActionAt := now, comments := s.record.comments + 1);
              t == s.(clock := now, record := r, row := r, events := s.events + [Event(ExpiredEvent, "system", now)])
            else t == s.(clock := now)
  {
  }

  lemma {:induction false} ForcedExpiryOutcome(created: Time, minutes: int, past: seq<Action>, at: Time)
    ensures var s := RunFrom(Create(created, minutes), past);
            var t := Step(s, Action.ForceExpire(at));
            && t.record == t.row && t.record.status == Pending && t.record.expiresAt == t.clock - 300
            && t.clock == Later(s.clock, at) && t.claims == s.claims && t.tasks == s.tasks
            && t.record == s.record.(status := Pending, expiresAt := t.clock - 300,
                                     lastActionAt := t.record.lastActionAt, comments := t.record.comments)
            && Step(t, Read(t.clock)).record.status == Expired
  {
  }

  // ---------------------------------------------------------------- approval

  /** The body brings a one-time code that the last approval did not use. */
  predicate HasFreshCode(body: Body, used: Option<int>) {
    body.Parsed? && body.mfa.Code? && used != Some(body.mfa.counter)
  }

  lemma {:induction false} VerifiedIff(r: Record, mfa: Mfa, stage: Stage)
    ensures VerifyMfa(r, mfa, stage).Accepted? <==>
      && mfa.Code? && (stage == ApprovalStage ==> r.approvalCounter != Some(mfa.counter))
      && (stage == ExecutionStage ==> r.approvalCounter != Some(mfa.counter) && r.executionCounter != Some(mfa.counter))
    ensures VerifyMfa(r, mfa, stage).Accepted? ==> VerifyMfa(r, mfa, stage).counter == mfa.counter
    ensures VerifyMfa(r, mfa, stage).Unconfigured? <==> mfa.NotConfigured?
  {
  }

  function ApprovedRecord(r: Record, actor: Actor, now: Time, verified: bool, body: Body, window: int): Record
    requires verified ==> body.Parsed? && body.mfa.Code?
  {
    r.(status := Status.Approved, approvedAt := Some(now), approvedBy := Some(actor),
       approvalMfaVerified := verified, approvalCounter := if verified then Some(body.mfa.counter) else None,
       executionExpiresAt := Some(now + 60 * Later(window, 1)), lastActionAt := now,
       comments := r.comments + Comments(body))
  }

  lemma {:induction false} GrantOutcome(n: State, actor: Actor, verified: bool, body: Body, window: int)
    requires verified ==> body.Parsed? && body.mfa.Code?
    ensures var r := ApprovedRecord(n.record, actor, n.clock, verified, body, window);
            Approve(n, actor, if verified then Some(body.mfa.counter) else None, body, window)
            == n.(record := r, row := r, events := n.events + [Event(ApprovedEvent, actor, n.clock)])
  {
  }

  lemma {:induction false} ApprovalSegment(n: State, task: Task, body: Body, window: int)
    requires task.Approving?
    ensures var t := ApproveWithBody(n, task, body, window);
            if body.Malformed? || (task.requireMfa && (body.Empty? || body.mfa.NotConfigured?)) then t == n
            else if task.requireMfa && !HasFreshCode(body, n.record.approvalCounter) then
              t == n.(events := n.events + [Event(ApprovalMfaFailedEvent, task.actor, n.clock)])
            else
              var r := ApprovedRecord(n.record, task.actor, n.clock, task.requireMfa, body, window);
              t == n.(record := r, row := r, events := n.events + [Event(ApprovedEvent, task.actor, n.clock)])
  {
    VerifiedIff(n.record, MfaCode(body), ApprovalStage);
    if !body.Malformed? && (!task.requireMfa || HasFreshCode(body, n.record.approvalCounter)) {
      GrantOutcome(n, task.actor, task.requireMfa, body, window);
    }
  }

  /** A well-formed approval goes through when no code is asked for, or a fresh one is given. */
  lemma {:induction false} ApproveOutcome(
    created: Time, minutes: int, past: seq<Action>, at: Time, id: nat, body: Body, window: int)
    requires var s := RunFrom(Create(created, minutes), past); id in s.tasks && s.tasks[id].Approving?
    ensures var s := RunFrom(Create(created, minutes), past);
            var t, task := Step(s, FinishApprove(at, id, body, window)), s.tasks[id];
            if body.Malformed? || (task.requireMfa && (body.Empty? || body.mfa.NotConfigured?)) then
              OnlyResumed(s, t, id, at)
            else if task.requireMfa && !HasFreshCode(body, s.record.approvalCounter) then
              Stored(s, t, id, at, s.record, ApprovalMfaFailedEvent, task.actor)
            else
              Stored(s, t, id, at,
                ApprovedRecord(s.record, task.actor, Later(s.clock, at), task.requireMfa, body, window),
                ApprovedEvent, task.actor)
  {
    ReachedInv(created, minutes, past);
    var s := RunFrom(Create(created, minutes), past);
    var n := s.(clock := Later(s.clock, at), tasks := s.tasks - {id});
    assert Step(s, FinishApprove(at, id, body, window)) == ApproveWithBody(n, s.tasks[id], body, window);
    ApprovalSegment(n, s.tasks[id], body, window);
  }

  // ---------------------------------------------------------------- rejection

  /**
   A well-formed rejection leaves the record rejected, by its actor, with one more event, if and only if the record
   is not expired, approved or executed by then; otherwise record, row and events stay.
   */
  lemma {:induction false} RejectOutcome(
    created: Time, minutes: int, past: seq<Action>, at: Time, id: nat, body: Body)
    requires var s := RunFrom(Create(created, minutes), past); id in s.tasks && s.tasks[id].Rejecting?
    ensures var s := RunFrom(Create(created, minutes), past);
            var t, now := Step(s, FinishReject(at, id, body)), Later(s.clock, at);
            if body.Malformed? || s.record.status in {Expired, Status.Approved, Executed} then OnlyResumed(s, t, id, at)
            else
              Stored(s, t, id, at,
                s.record.(status := Status.Rejected, rejectedAt := Some(now), rejectedBy := Some(s.tasks[id].actor),
                          lastActionAt := now, comments := s.record.comments + Comments(body)),
                RejectedEvent, s.tasks[id].actor)
  {
  }

  /** The rejection was completed: its record says so. */
  predicate Rejects(s: State, a: Action) {
    && a.FinishReject? && a.task in s.tasks && s.tasks[a.task].Rejecting? && !a.body.Malformed?
    && s.record.status !in {Expired, Status.Approved, Executed}
  }

  /**
   A completed rejection of an unexecuted record is final - no continuation ever starts an execution - if and only
   if no approval handler is waiting for its body, or the deadline has passed.
   */
  lemma {:induction false} RejectionIsFinalIff(created: Time, minutes: int, past: seq<Action>, a: Action)
    requires var s := RunFrom(Create(created, minutes), past); s.claims == [] && Rejects(s, a)
    ensures var s := RunFrom(Create(created, minutes), past);
            var t := Step(s, a);
            && t.record.status == Status.Rejected && t.record.rejectedBy == Some(s.tasks[a.task].actor)
            && ((forall more :: RunFrom(t, more).claims == [])
                <==> !ApproveInFlight(s) || t.clock >= t.record.expiresAt)
  {
    var s0 := Create(created, minutes);
    var s := RunFrom(s0, past);
    var t := Step(s, a);
    RunOneMore(s0, past, a);
    CanStillExecuteIff(created, minutes, past + [a]);
    SameApprovalsInFlight(s, t, a.task);
    if CanStillExecute(t) {
      var more :| RunFrom(t, more).claims != t.claims;
      assert RunFrom(t, more).claims != [];
    } else {
      forall more ensures RunFrom(t, more).claims == [] { assert !(RunFrom(t, more).claims != t.claims); }
    }
  }

  lemma {:induction false} SameApprovalsInFlight(s: State, t: State, id: nat)
    requires id in s.tasks && !s.tasks[id].Approving? && t.tasks == s.tasks - {id}
    ensures ApproveInFlight(t) <==> ApproveInFlight(s)
  {
    if ApproveInFlight(s) {
      var i :| i in s.tasks && s.tasks[i].Approving?;
      assert i in t.tasks && t.tasks[i].Approving?;
    }
  }

  // ---------------------------------------------------------------- execution

  /** An unclaimed approval by the same actor, both deadlines ahead, and a code the approval has not used. */
  predicate MayClaim(s: State, actor: Actor, now: Time, body: Body) {
    && s.record.status == Status.Approved && s.record.approvedBy == Some(actor) && s.record.tokenUsedAt.None?
    && now < s.record.expiresAt
    && (s.record.executionExpiresAt.None? || now < s.record.executionExpiresAt.value)
    && HasFreshCode(body, s.record.approvalCounter)
  }

  function ClaimedRecord(r: Record, actor: Actor, now: Time, body: Body): Record
    requires body.Parsed? && body.mfa.Code?
  {
    r.(status := Executing, executedBy := Some(actor), executionMfaVerified := true,
       executionCounter := Some(body.mfa.counter), tokenUsedAt := Some(now), lastActionAt := now,
       comments := r.comments + Comments(body))
  }

  lemma {:induction false} ClaimsIff(n: State, id: nat, task: Task, body: Body)
    requires Inv(n) && task.Requesting?
    ensures var t := ExecuteWithBody(n, id, task, body);
            && (t.claims != n.claims <==> MayClaim(n, task.actor, n.clock, body))
            && (MayClaim(n, task.actor, n.clock, body) ==> t == ClaimToken(n, id, task.actor, body.mfa.counter, body))
  {
    VerifiedIff(n.record, MfaCode(body), ExecutionStage);
    if MayClaim(n, task.actor, n.clock, body) { ClaimOutcome(n, id, task.actor, body); }
  }

  lemma {:induction false} ClaimOutcome(n: State, id: nat, actor: Actor, body: Body)
    requires n.row == n.record && MayClaim(n, actor, n.clock, body)
    ensures var r := ClaimedRecord(n.record, actor, n.clock, body);
            ClaimToken(n, id, actor, body.mfa.counter, body)
            == n.(record := r, row := r, events := n.events + [Event(ExecutingEvent, actor, n.clock)],
                  tasks := n.tasks[id := Running(actor, Comments(body) == 1)],
                  claims := n.claims + [Claim(actor, n.clock, body.mfa.counter, n.record.approvalCounter,
                                              n.record.expiresAt, n.record.executionExpiresAt)])
  {
  }

  /** An execution starts if and only if the handler may claim; then it runs, and the claim shows what it rests on. */
  lemma {:induction false} ExecuteOutcome(
    created: Time, minutes: int, past: seq<Action>, at: Time, id: nat, body: Body)
    requires var s := RunFrom(Create(created, minutes), past); id in s.tasks && s.tasks[id].Requesting?
    ensures var s := RunFrom(Create(created, minutes), past);
            var t, now, actor := Step(s, FinishExecute(at, id, body)), Later(s.clock, at), s.tasks[id].actor;
            && (t.claims != s.claims <==> MayClaim(s, actor, now, body))
            && (MayClaim(s, actor, now, body) ==>
                  var r := ClaimedRecord(s.record, actor, now, body);
                  t == s.(clock := now, record := r, row := r, events := s.events + [Event(ExecutingEvent, actor, now)],
                          tasks := s.tasks[id := Running(actor, Comments(body) == 1)],
                          claims := s.claims + [Claim(actor, now, body.mfa.counter, s.record.approvalCounter,
                                                      s.record.expiresAt, s.record.executionExpiresAt)]))
  {
    ReachedInv(created, minutes, past);
    var s := RunFrom(Create(created, minutes), past);
    var n := s.(clock := Later(s.clock, at), tasks := s.tasks - {id});
    assert Step(s, FinishExecute(at, id, body)) == ExecuteWithBody(n, id, s.tasks[id], body);
    ClaimsIff(n, id, s.tasks[id], body);
    if MayClaim(n, s.tasks[id].actor, n.clock, body) {
      ClaimOutcome(n, id, s.tasks[id].actor, body);
      var running := Running(s.tasks[id].actor, Comments(body) == 1);
      assert n.tasks[id := running] == s.tasks[id := running];
    }
  }

  function ExpiredRecord(r: Record, now: Time): Record {
    r.(status := Expired, lastActionAt := now, comments := r.comments + 1)
  }

  lemma {:induction false} ExecutionSegment(n: State, id: nat, task: Task, body: Body)
    requires task.Requesting? && n.row == n.record && (n.record.status == Status.Approved ==> n.record.approvedBy.Some?)
    ensures var t, r := ExecuteWithBody(n, id, task, body), n.record;
            if body.Malformed? then t == n
            else if r.status in {Executing, Executed, ExecutionFailed} then
              t == n.(events := n.events + [Event(ReplayRejectedEvent, task.actor, n.clock)])
            else if r.status != Status.Approved then t == n
            else if r.approvedBy != Some(task.actor) then
              t == n.(events := n.events + [Event(TransferRejectedEvent, task.actor, n.clock)])
            else if n.clock >= r.expiresAt || (r.executionExpiresAt.Some? && n.clock >= r.executionExpiresAt.value) then
              t == n.(record := ExpiredRecord(r, n.clock), row := ExpiredRecord(r, n.clock),
                      events := n.events + [Event(ExpiredEvent, "system", n.clock)])
            else if body.Empty? then t == n
            else if !HasFreshCode(body, r.approvalCounter) || r.executionCounter == Some(body.mfa.counter) then
              t == n.(events := n.events + [Event(ExecutionMfaFailedEvent, task.actor, n.clock)])
            else r.tokenUsedAt.Some? ==>
              t == n.(events := n.events + [Event(ReplayRejectedEvent, task.actor, n.clock)])
  {
    VerifiedIff(n.record, MfaCode(body), ExecutionStage);
  }

  /** The refusals of an execution, in the handler's order, each with its event or none. */
  lemma {:induction false} RefusedExecution(
    created: Time, minutes: int, past: seq<Action>, at: Time, id: nat, body: Body)
    requires var s := RunFrom(Create(created, minutes), past); id in s.tasks && s.tasks[id].Requesting?
    ensures var s := RunFrom(Create(created, minutes), past);
            var t, r := Step(s, FinishExecute(at, id, body)), s.record;
            var now, actor := Later(s.clock, at), s.tasks[id].actor;
            if body.Malformed? then OnlyResumed(s, t, id, at)
            else if r.status in {Executing, Executed, ExecutionFailed} then
              Stored(s, t, id, at, r, ReplayRejectedEvent, actor)
            else if r.status != Status.Approved then OnlyResumed(s, t, id, at)
            else if r.approvedBy != Some(actor) then Stored(s, t, id, at, r, TransferRejectedEvent, actor)
            else if now >= r.expiresAt || (r.executionExpiresAt.Some? && now >= r.executionExpiresAt.value) then
              Stored(s, t, id, at, ExpiredRecord(r, now), ExpiredEvent, "system")
            else if body.Empty? then OnlyResumed(s, t, id, at)
            else if !HasFreshCode(body, r.approvalCounter) || r.executionCounter == Some(body.mfa.counter) then
              Stored(s, t, id, at, r, ExecutionMfaFailedEvent, actor)
            else if r.tokenUsedAt.Some? then Stored(s, t, id, at, r, ReplayRejectedEvent, actor)
            else MayClaim(s, actor, now, body)
  {
    ReachedInv(created, minutes, past);
    var s := RunFrom(Create(created, minutes), past);
    var n := s.(clock := Later(s.clock, at), tasks := s.tasks - {id});
    assert Step(s, FinishExecute(at, id, body)) == ExecuteWithBody(n, id, s.tasks[id], body);
    ExecutionSegment(n, id, s.tasks[id], body);
  }

  lemma {:induction false} CompletionOutcome(
    created: Time, minutes: int, past: seq<Action>, at: Time, id: nat, succeeded: bool)
    requires var s := RunFrom(Create(created, minutes), past); id in s.tasks && s.tasks[id].Running?
    ensures var s := RunFrom(Create(created, minutes), past);
            var t, r, now, task :=
              Step(s, CompleteExecution(at, id, succeeded)), s.record, Later(s.clock, at), s.tasks[id];
            if succeeded then
              Stored(s, t, id, at,
                r.(status := Executed, executedAt := Some(now), lastActionAt := now,
                   comments := r.comments + if task.comment then 1 else 0),
                ExecutedEvent, task.actor)
            else
              Stored(s, t, id, at, r.(status := ExecutionFailed, lastActionAt := now), ExecutionFailedEvent, task.actor)
  {
  }

  // ---------------------------------------------------------------- the handlers up to their await

  /** An approval waits for its body exactly when it is admitted and the record, once read, is pending or approved. */
  lemma {:induction false} StartOutcomes(
    created: Time, minutes: int, past: seq<Action>, at: Time, actor: Actor, admitted: bool, requireMfa: bool)
    ensures var s := RunFrom(Create(created, minutes), past);
            var read := Step(s, Read(at));
            && Step(s, StartApprove(at, actor, admitted, requireMfa))
               == (if admitted && read.record.status in {Pending, Status.Approved}
                   then read.(tasks := read.tasks[s.nextTask := Approving(actor, requireMfa)],
                              nextTask := s.nextTask + 1)
                   else read)
            && Step(s, StartReject(at, actor, admitted))
               == (if admitted
                   then read.(tasks := read.tasks[s.nextTask := Rejecting(actor)], nextTask := s.nextTask + 1)
                   else read)
            && Step(s, StartExecute(at, actor, admitted))
               == (if admitted
                   then read.(tasks := read.tasks[s.nextTask := Requesting(actor)], nextTask := s.nextTask + 1)
                   else read)
  {
  }
}
