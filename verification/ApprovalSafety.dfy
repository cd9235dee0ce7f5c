/**
 What every run of the approval protocol keeps, however its handlers interleave.
 */
module ApprovalSafety {
  import opened Options
  import opened Approval

  /** The actor of the last approval in the audit events. */
  function LatestApprover(events: seq<Event>): Option<Actor> {
    if events == [] then None
    else
      var last := events[|events| - 1];
      if last.kind == ApprovedEvent then Some(last.actor) else LatestApprover(events[..|events| - 1])
  }

  function Count(events: seq<Event>, kind: EventKind): nat {
    if events == [] then 0
    else Count(events[..|events| - 1], kind) + (if events[|events| - 1].kind == kind then 1 else 0)
  }

  function Endings(events: seq<Event>): nat { Count(events, ExecutedEvent) + Count(events, ExecutionFailedEvent) }

  /** Event j starts the claimed execution, and the approval in force at that point was given by the claimant. */
  ghost predicate StartsAt(events: seq<Event>, c: Claim, j: nat) {
    && 0 < j < |events|
    && events[j] == Event(ExecutingEvent, c.actor, c.at)
    && LatestApprover(events[..j]) == Some(c.actor)
  }

  ghost predicate ClaimIsGood(events: seq<Event>, c: Claim) {
    && (exists j: nat :: StartsAt(events, c, j))
    && c.at < c.expiresAt
    && c.executionExpiresAt.Some? && c.at < c.executionExpiresAt.value
    && c.approvalCounter != Some(c.counter)
  }

  /** Every end of an execution comes after its start. */
  ghost predicate EndsFollowStarts(events: seq<Event>) {
    forall k :: 0 <= k < |events| && events[k].kind in {ExecutedEvent, ExecutionFailedEvent} ==>
      exists j :: 0 <= j < k && events[j].kind == ExecutingEvent
  }

  ghost predicate RunningIsTheClaim(s: State) {
    && (forall i :: i in s.tasks && s.tasks[i].Running? ==>
          |s.claims| == 1 && s.tasks[i].actor == s.claims[0].actor && Endings(s.events) == 0)
    && (forall i, j :: i in s.tasks && j in s.tasks && s.tasks[i].Running? && s.tasks[j].Running? ==> i == j)
  }

  ghost predicate Inv(s: State) {
    && s.row == s.record
    && |s.claims| <= 1
    && (s.record.tokenUsedAt.None? <==> s.claims == [])
    && (s.claims == [] ==> s.record.executionCounter.None?)
    && (s.record.status == Status.Approved ==> s.record.approvedBy.Some? && s.record.executionExpiresAt.Some?)
    && (s.record.status in {Executed, ExecutionFailed} ==> Endings(s.events) > 0)
    && s.record.approvedBy == LatestApprover(s.events)
    && (forall i :: i in s.tasks ==> i < s.nextTask)
    && RunningIsTheClaim(s)
    && |s.events| > 0 && s.events[0].kind == CreatedEvent
    && Count(s.events, ExecutingEvent) == |s.claims|
    && Endings(s.events) <= |s.claims|
    && (s.claims != [] ==> ClaimIsGood(s.events, s.claims[0]))
    && EndsFollowStarts(s.events)
  }

  // ---------------------------------------------------------------- appending one audit event

  lemma {:induction false} LogKeepsClaim(events: seq<Event>, e: Event, c: Claim)
    requires ClaimIsGood(events, c)
    ensures ClaimIsGood(events + [e], c)
  {
    var j: nat :| StartsAt(events, c, j);
    assert (events + [e])[..j] == events[..j];
    assert StartsAt(events + [e], c, j);
  }

  lemma {:induction false} LogKeepsOrder(events: seq<Event>, e: Event)
    requires EndsFollowStarts(events)
    requires e.kind in {ExecutedEvent, ExecutionFailedEvent} ==>
        exists j :: 0 <= j < |events| && events[j].kind == ExecutingEvent
    ensures EndsFollowStarts(events + [e])
  {
    var more := events + [e];
    forall k | 0 <= k < |more| && more[k].kind in {ExecutedEvent, ExecutionFailedEvent}
      ensures exists j :: 0 <= j < k && more[j].kind == ExecutingEvent
    {
      var j :| 0 <= j < k && events[j].kind == ExecutingEvent;
      assert more[j].kind == ExecutingEvent;
    }
  }

  lemma {:induction false} LogEffect(s: State, e: Event)
    requires Inv(s)
    requires e.kind in {ExecutedEvent, ExecutionFailedEvent} ==> s.claims != []
    ensures LatestApprover(s.events + [e]) == if e.kind == ApprovedEvent then Some(e.actor)
        else LatestApprover(s.events)
    ensures forall kind :: Count(s.events + [e], kind) == Count(s.events, kind) + if e.kind == kind then 1 else 0
    ensures s.claims != [] ==> ClaimIsGood(s.events + [e], s.claims[0])
    ensures EndsFollowStarts(s.events + [e])
    ensures (s.events + [e])[0] == s.events[0]
  {
    assert (s.events + [e])[..|s.events|] == s.events;
    if s.claims != [] {
      LogKeepsClaim(s.events, e, s.claims[0]);
      var j: nat :| StartsAt(s.events, s.claims[0], j);
      assert s.events[j].kind == ExecutingEvent;
    }
    LogKeepsOrder(s.events, e);
  }

  /** An event that neither approves nor starts nor ends an execution, with or without a change of status. */
  lemma {:induction false} NoteKeepsInv(s: State, r: Record, kind: EventKind, actor: Actor)
    requires Inv(s)
    requires kind !in {ApprovedEvent, ExecutingEvent, ExecutedEvent, ExecutionFailedEvent}
    requires r == s.record.(status := r.status, lastActionAt := r.lastActionAt, comments := r.comments,
                            rejectedAt := r.rejectedAt, rejectedBy := r.rejectedBy)
    requires r.status in {Status.Approved, Executed, ExecutionFailed} ==> r.status == s.record.status
    ensures Inv(Log(Save(s, r), kind, actor))
  {
    LogEffect(s, Event(kind, actor, s.clock));
  }

  lemma {:induction false} FetchKeepsInv(s: State)
    requires Inv(s)
    ensures Inv(Fetch(s))
  {
    if s.record.status == Pending && s.clock >= s.record.expiresAt { MarkExpiredKeepsInv(s); }
  }

  lemma {:induction false} MarkExpiredKeepsInv(s: State)
    requires Inv(s)
    ensures Inv(MarkExpired(s))
  {
    NoteKeepsInv(s, s.record.(status := Expired, lastActionAt := s.clock, comments := s.record.comments + 1),
        ExpiredEvent, "system");
  }

  lemma {:induction false} LogKeepsInv(s: State, kind: EventKind, actor: Actor)
    requires Inv(s)
    requires kind !in {ApprovedEvent, ExecutingEvent, ExecutedEvent, ExecutionFailedEvent}
    ensures Inv(Log(s, kind, actor))
  {
    NoteKeepsInv(s, s.record, kind, actor);
    assert Save(s, s.record) == s;
  }

  lemma {:induction false} GrantKeepsInv(s: State, actor: Actor, counter: Option<int>, body: Body, minutes: int)
    requires Inv(s)
    ensures Inv(Approve(s, actor, counter, body, minutes))
  {
    LogEffect(s, Event(ApprovedEvent, actor, s.clock));
  }

  lemma {:induction false} ApproveKeepsInv(s: State, task: Task, body: Body, minutes: int)
    requires Inv(s) && task.Approving?
    ensures Inv(ApproveWithBody(s, task, body, minutes))
  {
    var next := ApproveWithBody(s, task, body, minutes);
    if next != s && next != Log(s, ApprovalMfaFailedEvent, task.actor) {
      var counter :| next == Approve(s, task.actor, counter, body, minutes);
      GrantKeepsInv(s, task.actor, counter, body, minutes);
    } else {
      LogKeepsInv(s, ApprovalMfaFailedEvent, task.actor);
    }
  }

  lemma {:induction false} RejectKeepsInv(s: State, task: Task, body: Body)
    requires Inv(s) && task.Rejecting?
    ensures Inv(RejectWithBody(s, task, body))
  {
    NoteKeepsInv(s, s.record.(status := Status.Rejected, rejectedAt := Some(s.clock), rejectedBy := Some(task.actor),
                              lastActionAt := s.clock, comments := s.record.comments + CommentCount(body)),
                 RejectedEvent, task.actor);
  }

  /** A segment that does not win the compare-and-set only logs, or expires the record. */
  lemma {:induction false} LosingSegment(s: State, id: nat, task: Task, body: Body)
    requires task.Requesting? && ExecuteWithBody(s, id, task, body).claims == s.claims
    ensures var next := ExecuteWithBody(s, id, task, body);
            next == s || next == MarkExpired(s) || next == Log(s, ReplayRejectedEvent, task.actor)
            || next == Log(s, TransferRejectedEvent, task.actor) || next == Log(s, ExecutionMfaFailedEvent, task.actor)
  {
  }

  lemma {:induction false} ExecuteKeepsInv(s: State, id: nat, task: Task, body: Body)
    requires Inv(s) && task.Requesting? && id !in s.tasks && id < s.nextTask
    ensures Inv(ExecuteWithBody(s, id, task, body))
  {
    if ExecuteWithBody(s, id, task, body).claims == s.claims {
      LosingSegment(s, id, task, body);
      LogKeepsInv(s, ReplayRejectedEvent, task.actor);
      LogKeepsInv(s, TransferRejectedEvent, task.actor);
      LogKeepsInv(s, ExecutionMfaFailedEvent, task.actor);
      MarkExpiredKeepsInv(s);
    } else {
      ClaimKeepsInv(s, id, task, body);
    }
  }

  /** What holds when a segment wins the compare-and-set. */
  lemma {:induction false} WinningSegment(s: State, id: nat, task: Task, body: Body) returns (code: int)
    requires task.Requesting? && ExecuteWithBody(s, id, task, body).claims != s.claims
    ensures ExecuteWithBody(s, id, task, body) == ClaimToken(s, id, task.actor, code, body)
    ensures s.row.status == s.record.status == Status.Approved && s.row.tokenUsedAt.None?
    ensures s.record.approvedBy.Some? ==> s.record.approvedBy.value == task.actor
    ensures s.clock < s.record.expiresAt && s.record.approvalCounter != Some(code)
    ensures s.record.executionExpiresAt.Some? ==> s.clock < s.record.executionExpiresAt.value
  {
    code := body.mfa.counter;
  }

  lemma {:induction false} ClaimIsGoodNow(s: State, actor: Actor, c: Claim)
    requires Inv(s) && LatestApprover(s.events) == Some(actor) && c.actor == actor && c.at == s.clock
    requires c.at < c.expiresAt && c.executionExpiresAt.Some? && c.at < c.executionExpiresAt.value
    requires c.approvalCounter != Some(c.counter)
    ensures ClaimIsGood(s.events + [Event(ExecutingEvent, actor, s.clock)], c)
  {
    var more := s.events + [Event(ExecutingEvent, actor, s.clock)];
    assert more[..|s.events|] == s.events;
    assert StartsAt(more, c, |s.events|);
  }

  /** The segment that wins the compare-and-set. */
  lemma {:induction false} ClaimKeepsInv(s: State, id: nat, task: Task, body: Body)
    requires Inv(s) && task.Requesting? && id !in s.tasks && id < s.nextTask
    requires ExecuteWithBody(s, id, task, body).claims != s.claims
    ensures Inv(ExecuteWithBody(s, id, task, body))
  {
    var code := WinningSegment(s, id, task, body);
    var next := ClaimToken(s, id, task.actor, code, body);
    LogEffect(s, Event(ExecutingEvent, task.actor, s.clock));
    ClaimIsGoodNow(s, task.actor, next.claims[0]);
    assert RunningIsTheClaim(next) by {
      assert forall i :: i in next.tasks && next.tasks[i].Running? ==> i == id;
    }
  }

  lemma {:induction false} CompleteKeepsInv(s: State, id: nat, succeeded: bool)
    requires Inv(s) && id in s.tasks && s.tasks[id].Running?
    ensures Inv(Complete(Resume(s, id), s.tasks[id], succeeded))
  {
    var task := s.tasks[id];
    var next := Complete(Resume(s, id), task, succeeded);
    LogEffect(s, Event(if succeeded then ExecutedEvent else ExecutionFailedEvent, task.actor, s.clock));
    var j: nat :| StartsAt(s.events, s.claims[0], j);
    assert s.events[j].kind == ExecutingEvent;
  }

  lemma {:induction false} SuspendKeepsInv(s: State, task: Task)
    requires Inv(s) && !task.Running?
    ensures Inv(Suspend(s, task))
  {
  }

  lemma {:induction false} ResumeKeepsInv(s: State, id: nat)
    requires Inv(s)
    ensures Inv(Resume(s, id))
  {
  }

  lemma {:induction false} ForceExpireKeepsInv(s: State)
    requires Inv(s)
    ensures Inv(Save(s, s.record.(expiresAt := s.clock - 300, status := Pending)))
  {
  }

  lemma {:induction false} StepKeepsInv(s: State, a: Action)
    requires Inv(s)
    ensures Inv(Step(s, a))
  {
    var now := Tick(s, a.at);
    assert Inv(now);
    FetchKeepsInv(now);
    var fetched := Fetch(now);
    match a {
      case Read(_) =>
      case ForceExpire(_) => ForceExpireKeepsInv(fetched);
      case StartApprove(_, actor, admitted, requireMfa) => SuspendKeepsInv(fetched, Approving(actor, requireMfa));
      case StartReject(_, actor, admitted) => SuspendKeepsInv(fetched, Rejecting(actor));
      case StartExecute(_, actor, admitted) => SuspendKeepsInv(fetched, Requesting(actor));
      case FinishApprove(_, id, body, minutes) =>
        ResumeKeepsInv(now, id);
        if id in s.tasks && s.tasks[id].Approving? { ApproveKeepsInv(Resume(now, id), s.tasks[id], body, minutes); }
      case FinishReject(_, id, body) =>
        ResumeKeepsInv(now, id);
        if id in s.tasks && s.tasks[id].Rejecting? { RejectKeepsInv(Resume(now, id), s.tasks[id], body); }
      case FinishExecute(_, id, body) =>
        ResumeKeepsInv(now, id);
        if id in s.tasks && s.tasks[id].Requesting? { ExecuteKeepsInv(Resume(now, id), id, s.tasks[id], body); }
      case CompleteExecution(_, id, succeeded) =>
        if id in s.tasks && s.tasks[id].Running? { CompleteKeepsInv(now, id, succeeded); }
    }
  }

  lemma {:induction false} RunKeepsInv(s: State, actions: seq<Action>)
    requires Inv(s)
    ensures Inv(RunFrom(s, actions))
  {
    if actions != [] {
      RunKeepsInv(s, actions[..|actions| - 1]);
      StepKeepsInv(RunFrom(s, actions[..|actions| - 1]), actions[|actions| - 1]);
    }
  }

  lemma {:induction false} CreateIsInv(now: Time, minutes: int)
    ensures Inv(Create(now, minutes))
  {
    var events := [Event(CreatedEvent, "system", now)];
    assert events[..0] == [];
    assert forall kind :: Count(events, kind) == Count(events[..0], kind) + if kind == CreatedEvent then 1 else 0;
  }

  // ---------------------------------------------------------------- main results

  /** Whatever the interleaving, at most one execution of a record ever starts, and at most one ends. */
  lemma {:induction false} AtMostOneExecution(created: Time, minutes: int, actions: seq<Action>)
    ensures var s := RunFrom(Create(created, minutes), actions);
            |s.claims| <= 1 && Count(s.events, ExecutingEvent) == |s.claims| && Endings(s.events) <= |s.claims|
  {
    CreateIsInv(created, minutes);
    RunKeepsInv(Create(created, minutes), actions);
  }

  /** Event i is the approval, event j the start of the execution it authorised; no approval lies between them. */
  ghost predicate AuthorisedBy(events: seq<Event>, c: Claim, i: nat, j: nat) {
    && 0 < i < j < |events|
    && events[i].kind == ApprovedEvent && events[i].actor == c.actor
    && (forall k :: i < k < j ==> events[k].kind != ApprovedEvent)
    && events[j] == Event(ExecutingEvent, c.actor, c.at)
    && (forall k :: 0 <= k < |events| && events[k].kind == ExecutedEvent ==> j < k)
  }

  /**
   The execution that starts is the one the latest approval authorised: same actor, before both
   deadlines, with a fresh one-time code; the audit events show created, approved, executing and
   executed in that order.
   */
  lemma {:induction false} WinningClaim(created: Time, minutes: int, actions: seq<Action>)
    requires RunFrom(Create(created, minutes), actions).claims != []
    ensures var s := RunFrom(Create(created, minutes), actions);
            var c := s.claims[0];
            && c.at < c.expiresAt
            && c.executionExpiresAt.Some? && c.at < c.executionExpiresAt.value
            && c.approvalCounter != Some(c.counter)
            && |s.events| > 0 && s.events[0].kind == CreatedEvent
            && exists i, j :: AuthorisedBy(s.events, c, i, j)
  {
    CreateIsInv(created, minutes);
    RunKeepsInv(Create(created, minutes), actions);
    var s := RunFrom(Create(created, minutes), actions);
    var i, j := ClaimIsAuthorised(s.events, s.claims[0]);
  }

  lemma {:induction false} ClaimIsAuthorised(events: seq<Event>, c: Claim) returns (i: nat, j: nat)
    requires ClaimIsGood(events, c) && EndsFollowStarts(events) && Count(events, ExecutingEvent) == 1
    requires |events| > 0 && events[0].kind == CreatedEvent
    ensures AuthorisedBy(events, c, i, j)
  {
    j :| StartsAt(events, c, j);
    i := LatestApprovalIndex(events[..j]);
    assert events[i] == events[..j][i];
    forall k | i < k < j ensures events[k].kind != ApprovedEvent { assert events[k] == events[..j][k]; }
    forall k | 0 <= k < |events| && events[k].kind == ExecutedEvent ensures j < k {
      var m :| 0 <= m < k && events[m].kind == ExecutingEvent;
      if m != j { TwoStartsCountTwice(events, m, j); assert false; }
    }
  }

  lemma {:induction false} LatestApprovalIndex(events: seq<Event>) returns (i: nat)
    requires LatestApprover(events).Some?
    ensures i < |events| && events[i].kind == ApprovedEvent && events[i].actor == LatestApprover(events).value
    ensures forall k :: i < k < |events| ==> events[k].kind != ApprovedEvent
  {
    i := |events| - 1;
    if events[i].kind != ApprovedEvent {
      i := LatestApprovalIndex(events[..|events| - 1]);
    }
  }

  lemma {:induction false} StartsAreCounted(events: seq<Event>, i: nat)
    requires i < |events| && events[i].kind == ExecutingEvent
    ensures Count(events, ExecutingEvent) >= 1
  {
    if i < |events| - 1 { StartsAreCounted(events[..|events| - 1], i); }
  }

  lemma {:induction false} TwoStartsCountTwice(events: seq<Event>, i: nat, j: nat)
    requires i < |events| && j < |events| && i != j
    requires events[i].kind == ExecutingEvent && events[j].kind == ExecutingEvent
    ensures Count(events, ExecutingEvent) >= 2
  {
    var n := |events| - 1;
    if i == n { StartsAreCounted(events[..n], j); }
    else if j == n { StartsAreCounted(events[..n], i); }
    else { TwoStartsCountTwice(events[..n], i, j); }
  }

  lemma {:induction false} UsedTokenIsNotClaimed(s: State, id: nat, task: Task, body: Body)
    requires s.row == s.record && s.record.tokenUsedAt.Some? && task.Requesting?
    ensures ExecuteWithBody(s, id, task, body).record.tokenUsedAt == s.record.tokenUsedAt
    ensures ExecuteWithBody(s, id, task, body).claims == s.claims
  {
    if ExecuteWithBody(s, id, task, body).claims != s.claims {
      var code := WinningSegment(s, id, task, body);
      assert false;
    } else {
      LosingSegment(s, id, task, body);
    }
  }

  lemma {:induction false} StepKeepsToken(s: State, a: Action)
    requires Inv(s) && s.record.tokenUsedAt.Some?
    ensures Step(s, a).record.tokenUsedAt == s.record.tokenUsedAt
    ensures Step(s, a).claims == s.claims
  {
    if a.FinishExecute? && a.task in s.tasks && s.tasks[a.task].Requesting? {
      UsedTokenIsNotClaimed(Resume(Tick(s, a.at), a.task), a.task, s.tasks[a.task], a.body);
    }
  }

  /** Once used, the token stays used, in the record and in its row: no later whole-record write clears it. */
  lemma {:induction false} TokenStaysUsed(s: State, actions: seq<Action>)
    requires Inv(s) && s.record.tokenUsedAt.Some?
    ensures RunFrom(s, actions).row.tokenUsedAt == RunFrom(s, actions).record.tokenUsedAt == s.record.tokenUsedAt
    ensures RunFrom(s, actions).claims == s.claims
  {
    if actions != [] {
      var before := actions[..|actions| - 1];
      TokenStaysUsed(s, before);
      RunKeepsInv(s, before);
      StepKeepsToken(RunFrom(s, before), actions[|actions| - 1]);
      StepKeepsInv(RunFrom(s, before), actions[|actions| - 1]);
    }
  }
}
