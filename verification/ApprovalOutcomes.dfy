/**
 When an approval can still be executed, and when an executed one can change status again.
 */
module ApprovalOutcomes {
  import opened Options
  import opened Approval
  import opened ApprovalSafety

  ghost predicate ApproveInFlight(s: State) {
    exists i :: i in s.tasks && s.tasks[i].Approving?
  }

  ghost predicate CanStillExecute(s: State) {
    exists actions :: RunFrom(s, actions).claims != s.claims
  }

  /** Past its deadline, or decided with no approval handler waiting for its body. */
  ghost predicate Closed(s: State) {
    s.clock >= s.record.expiresAt || (s.record.status !in {Pending, Status.Approved} && !ApproveInFlight(s))
  }

  lemma {:induction false} StepKeepsClosed(s: State, a: Action)
    requires Closed(s)
    ensures Closed(Step(s, a)) && Step(s, a).claims == s.claims
  {
    var now := Tick(s, a.at);
    var next := Step(s, a);
    assert next.clock == now.clock;
    if s.clock < s.record.expiresAt && now.clock < s.record.expiresAt && !a.ForceExpire? {
      assert Fetch(now) == now;
      forall i | i in next.tasks ensures !next.tasks[i].Approving? {
        if i in s.tasks { assert !s.tasks[i].Approving?; }
      }
      assert next.record.status !in {Pending, Status.Approved};
    } else {
      assert next.clock >= next.record.expiresAt;
    }
  }

  lemma {:induction false} RunKeepsClosed(s: State, actions: seq<Action>)
    requires Closed(s)
    ensures Closed(RunFrom(s, actions)) && RunFrom(s, actions).claims == s.claims
  {
    if actions != [] {
      RunKeepsClosed(s, actions[..|actions| - 1]);
      StepKeepsClosed(RunFrom(s, actions[..|actions| - 1]), actions[|actions| - 1]);
    }
  }

  lemma {:induction false} RunOneMore(s: State, before: seq<Action>, a: Action)
    ensures RunFrom(s, before + [a]) == Step(RunFrom(s, before), a)
  {
    assert (before + [a])[..|before|] == before;
  }

  /** A code the approval stage has not just used. */
  function FreshCode(r: Record): int { if r.approvalCounter == Some(0) then 1 else 0 }

  function ApproveAction(s: State, i: nat): Action {
    FinishApprove(s.clock, i, Parsed(false, Code(FreshCode(s.record))), 10)
  }

  lemma {:induction false} ApproveActionApproves(s: State, i: nat)
    requires i in s.tasks && s.tasks[i].Approving?
    ensures var t := Step(s, ApproveAction(s, i));
            t.record.status == Status.Approved && t.record.approvedBy == Some(s.tasks[i].actor)
            && t.record.expiresAt == s.record.expiresAt && t.clock == s.clock
            && t.record.executionExpiresAt == Some(s.clock + 600)
            && t.tasks == s.tasks - {i} && t.nextTask == s.nextTask && t.claims == s.claims
  {
  }

  lemma {:induction false} ExecuteActionClaims(s: State, id: nat, code: int)
    requires s.row == s.record && s.record.status == Status.Approved && s.record.tokenUsedAt.None?
    requires id in s.tasks && s.tasks[id].Requesting? && s.record.approvedBy == Some(s.tasks[id].actor)
    requires s.clock < s.record.expiresAt && s.record.executionExpiresAt == Some(s.clock + 600)
    requires s.record.approvalCounter != Some(code) && s.record.executionCounter.None?
    ensures var t := Step(s, FinishExecute(s.clock, id, Parsed(false, Code(code))));
            t.claims != [] && t.clock == s.clock && t.tasks == s.tasks[id := Running(s.tasks[id].actor, false)]
  {
    var r := Resume(Tick(s, s.clock), id);
    assert r.tasks[id := Running(s.tasks[id].actor, false)] == s.tasks[id := Running(s.tasks[id].actor, false)];
  }

  lemma {:induction false} ApproveThenAsk(s: State, i: nat)
    requires Inv(s) && s.claims == [] && i in s.tasks && s.tasks[i].Approving?
    ensures var t := Step(Step(s, ApproveAction(s, i)), StartExecute(s.clock, s.tasks[i].actor, true));
            && t.row == t.record && t.record.status == Status.Approved && t.record.tokenUsedAt.None?
            && t.record.executionCounter.None? && t.record.approvedBy == Some(s.tasks[i].actor)
            && t.record.expiresAt == s.record.expiresAt && t.record.executionExpiresAt == Some(s.clock + 600)
            && t.clock == s.clock && t.claims == []
            && t.tasks == (s.tasks - {i})[s.nextTask := Requesting(s.tasks[i].actor)]
  {
    ApproveActionApproves(s, i);
    StepKeepsInv(s, ApproveAction(s, i));
  }

  /** From a waiting approval handler to a claimed execution: approve, ask to execute, supply a fresh code. */
  lemma {:induction false} PathToClaim(s: State, i: nat) returns (actions: seq<Action>)
    requires Inv(s) && s.claims == [] && s.clock < s.record.expiresAt
    requires i in s.tasks && s.tasks[i].Approving?
    ensures var t := RunFrom(s, actions);
            t.claims != [] && t.clock == s.clock && s.nextTask in t.tasks && t.tasks[s.nextTask].Running?
            && (forall j :: j in s.tasks && j != i ==> j in t.tasks && t.tasks[j] == s.tasks[j])
  {
    var a1, a2 := ApproveAction(s, i), StartExecute(s.clock, s.tasks[i].actor, true);
    var s2 := Step(Step(s, a1), a2);
    ApproveThenAsk(s, i);
    var code := if s2.record.approvalCounter == Some(2) then 3 else 2;
    ExecuteActionClaims(s2, s.nextTask, code);
    var a3 := FinishExecute(s.clock, s.nextTask, Parsed(false, Code(code)));
    actions := [a1, a2, a3];
    ThreeSteps(s, a1, a2, a3);
  }

  lemma {:induction false} ThreeSteps(s: State, a1: Action, a2: Action, a3: Action)
    ensures RunFrom(s, [a1, a2, a3]) == Step(Step(Step(s, a1), a2), a3)
  {
    assert [] + [a1] == [a1] && [a1] + [a2] == [a1, a2] && [a1, a2] + [a3] == [a1, a2, a3];
    RunOneMore(s, [], a1);
    RunOneMore(s, [a1], a2);
    RunOneMore(s, [a1, a2], a3);
  }

  /**
   The exact condition: an unexecuted record can still be executed if and only if its deadline lies
   ahead and it is pending, approved, or has an approval handler waiting for its body.
   A rejection is therefore final only when no such handler is in flight.
   */
  lemma {:induction false} CanStillExecuteIff(created: Time, minutes: int, past: seq<Action>)
    requires RunFrom(Create(created, minutes), past).claims == []
    ensures var s := RunFrom(Create(created, minutes), past);
            CanStillExecute(s)
            <==> s.clock < s.record.expiresAt && (s.record.status in {Pending, Status.Approved} || ApproveInFlight(s))
  {
    var s := RunFrom(Create(created, minutes), past);
    CreateIsInv(created, minutes);
    RunKeepsInv(Create(created, minutes), past);
    if Closed(s) {
      forall actions ensures RunFrom(s, actions).claims == s.claims { RunKeepsClosed(s, actions); }
    } else {
      OpenPathToClaim(s);
    }
  }

  lemma {:induction false} OpenPathToClaim(s: State)
    requires Inv(s) && s.claims == [] && !Closed(s)
    ensures CanStillExecute(s)
  {
    if ApproveInFlight(s) {
      var i :| i in s.tasks && s.tasks[i].Approving?;
      var actions := PathToClaim(s, i);
      assert RunFrom(s, actions).claims != s.claims;
    } else {
      var a := StartApprove(s.clock, "approver", true, true);
      StepKeepsInv(s, a);
      assert Step(s, a) == Suspend(s, Approving("approver", true));
      var rest := PathToClaim(Step(s, a), s.nextTask);
      assert [] + [a] == [a];
      RunOneMore(s, [], a);
      RunAppend(s, [a], rest);
      assert RunFrom(s, [a] + rest).claims != s.claims;
    }
  }

  // ---------------------------------------------------------------- after the execution

  /** The approval handler's segment goes through: a body, and a code that verifies where one is required. */
  predicate ApprovalGoesThrough(s: State, a: Action) {
    && a.FinishApprove? && a.task in s.tasks && s.tasks[a.task].Approving? && !a.body.Malformed?
    && (s.tasks[a.task].requireMfa ==> VerifyMfa(s.record, MfaCode(a.body), ApprovalStage).Accepted?)
  }

  /**
   "Executed" is not final.  One segment takes an executed record out of that status exactly when it forces
   expiry or completes an approval that was checked before the execution.
   */
  lemma {:induction false} LeavesExecutedIff(created: Time, minutes: int, past: seq<Action>, a: Action)
    requires RunFrom(Create(created, minutes), past).record.status == Executed
    ensures var s := RunFrom(Create(created, minutes), past);
            Step(s, a).record.status != Executed <==> a.ForceExpire? || ApprovalGoesThrough(s, a)
  {
    CreateIsInv(created, minutes);
    RunKeepsInv(Create(created, minutes), past);
  }

  lemma {:induction false} CompleteThenApprove(s: State, id: nat, j: nat)
    requires Inv(s) && id in s.tasks && s.tasks[id].Running? && j in s.tasks && s.tasks[j].Approving?
    ensures var t := Step(s, CompleteExecution(s.clock, id, true));
            var u := Step(t, ApproveAction(t, j));
            && t.record.status == Executed && Count(t.events, ExecutedEvent) == 1
            && u.record.status == Status.Approved && u.claims == s.claims && |u.claims| == 1
  {
    var t := Step(s, CompleteExecution(s.clock, id, true));
    var e := Event(ExecutedEvent, s.tasks[id].actor, s.clock);
    assert t.events == s.events + [e];
    LogEffect(s, e);
    ApproveActionApproves(t, j);
  }

  lemma {:induction false} TwoApproversInFlight(created: Time)
    ensures var s := RunFrom(Create(created, 30),
        [StartApprove(created, "first", true, true), StartApprove(created, "second", true, true)]);
            && Inv(s) && s.claims == [] && s.clock < s.record.expiresAt
            && s.tasks == map[0 := Approving("first", true), 1 := Approving("second", true)]
  {
    var s := Create(created, 30);
    CreateIsInv(created, 30);
    var a1, a2 := StartApprove(created, "first", true, true), StartApprove(created, "second", true, true);
    assert [] + [a1] == [a1] && [a1] + [a2] == [a1, a2];
    RunOneMore(s, [], a1);
    RunOneMore(s, [a1], a2);
    RunKeepsInv(s, [a1, a2]);
  }

  lemma {:induction false} RunAppend(s: State, before: seq<Action>, rest: seq<Action>)
    ensures RunFrom(s, before + rest) == RunFrom(RunFrom(s, before), rest)
  {
    if rest == [] {
      assert before + rest == before;
    } else {
      var n := |rest| - 1;
      assert before + rest == (before + rest[..n]) + [rest[n]];
      RunOneMore(s, before + rest[..n], rest[n]);
      RunAppend(s, before, rest[..n]);
    }
  }

  /** A run in which an executed record is approved again; by `TokenStaysUsed` it is still never executed twice. */
  lemma {:induction false} ExecutedCanBeApprovedAgain(created: Time) returns (executed: seq<Action>, last: Action)
    ensures var s := RunFrom(Create(created, 30), executed);
            s.record.status == Executed && Count(s.events, ExecutedEvent) == 1
            && Step(s, last).record.status == Status.Approved && |Step(s, last).claims| == 1
  {
    var s0 := Create(created, 30);
    var starts := [StartApprove(created, "first", true, true), StartApprove(created, "second", true, true)];
    TwoApproversInFlight(created);
    var s2 := RunFrom(s0, starts);
    var path := PathToClaim(s2, 0);
    var s3 := RunFrom(s2, path);
    RunKeepsInv(s2, path);
    CompleteThenApprove(s3, s2.nextTask, 1);
    var complete := CompleteExecution(s3.clock, s2.nextTask, true);
    RunAppend(s0, starts, path);
    RunOneMore(s0, starts + path, complete);
    executed := starts + path + [complete];
    last := ApproveAction(Step(s3, complete), 1);
  }
}
