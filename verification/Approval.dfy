/**
 The human approval protocol (approval_store.py and the approve, reject, execute and
 forced-expiry handlers of main.py) for one approval record.

 A handler is split where it awaits its request body; between two such points it runs without
 interruption.  The gateway call that performs an approved request is a further split, because the
 thread-pool handlers (reads and forced expiry) run while it blocks.  `Step` gives the effect of one
 segment; the class performs it assignment by assignment, each assignment writing the whole
 record through to its database row.
 */
module Approval {
  import opened Options

  type Actor = string
  /** Seconds on one clock. */
  type Time = int

  datatype Status = Pending | Approved | Rejected | Expired | Executing | Executed | ExecutionFailed

  datatype Record = Record(
    status: Status,
    expiresAt: Time,
    approvedAt: Option<Time>, approvedBy: Option<Actor>,
    rejectedAt: Option<Time>, rejectedBy: Option<Actor>,
    executedAt: Option<Time>, executedBy: Option<Actor>,
    approvalMfaVerified: bool, approvalCounter: Option<int>,
    executionMfaVerified: bool, executionCounter: Option<int>,
    tokenUsedAt: Option<Time>, executionExpiresAt: Option<Time>,
    lastActionAt: Time, comments: nat)

  datatype EventKind =
    | CreatedEvent | ApprovedEvent | RejectedEvent | ExpiredEvent
    | ExecutingEvent | ExecutedEvent | ExecutionFailedEvent
    | ReplayRejectedEvent | TransferRejectedEvent | ApprovalMfaFailedEvent | ExecutionMfaFailedEvent

  /** A row of approval_audit_events. */
  datatype Event = Event(kind: EventKind, actor: Actor, at: Time)

  /** A handler waiting for its request body, or for the gateway call it has started. */
  datatype Task =
    | Approving(actor: Actor, requireMfa: bool)
    | Rejecting(actor: Actor)
    | Requesting(actor: Actor)
    | Running(actor: Actor, comment: bool)

  /** One successful compare-and-set, with the record's limits at that moment. */
  datatype Claim = Claim(
    actor: Actor, at: Time, counter: int,
    approvalCounter: Option<int>, expiresAt: Time, executionExpiresAt: Option<Time>)

  /** What the one-time-code check of the request amounts to; a code that verifies has a counter. */
  datatype Mfa = NoCode | NotConfigured | WrongCode | Code(counter: int)

  datatype Body = Malformed | Empty | Parsed(comment: bool, mfa: Mfa)

  datatype State = State(
    record: Record, row: Record, events: seq<Event>,
    tasks: map<nat, Task>, nextTask: nat, clock: Time, claims: seq<Claim>)

  datatype Action =
    | Read(at: Time)
    | ForceExpire(at: Time)
    | StartApprove(at: Time, actor: Actor, admitted: bool, requireMfa: bool)
    | FinishApprove(at: Time, task: nat, body: Body, expiryMinutes: int)
    | StartReject(at: Time, actor: Actor, admitted: bool)
    | FinishReject(at: Time, task: nat, body: Body)
    | StartExecute(at: Time, actor: Actor, admitted: bool)
    | FinishExecute(at: Time, task: nat, body: Body)
    | CompleteExecution(at: Time, task: nat, succeeded: bool)

  // ---------------------------------------------------------------- pieces of a segment

  function CommentCount(body: Body): nat { if body.Parsed? && body.comment then 1 else 0 }

  /** The whole record is written through to its row. */
  function Save(s: State, record: Record): State { s.(record := record, row := record) }

  function Log(s: State, kind: EventKind, actor: Actor): State {
    s.(events := s.events + [Event(kind, actor, s.clock)])
  }

  function Suspend(s: State, task: Task): State {
    s.(tasks := s.tasks[s.nextTask := task], nextTask := s.nextTask + 1)
  }

  function Resume(s: State, id: nat): State { s.(tasks := s.tasks - {id}) }

  function Tick(s: State, at: Time): State { s.(clock := if at > s.clock then at else s.clock) }

  function MarkExpired(s: State): State {
    Log(Save(s, s.record.(status := Expired, lastActionAt := s.clock, comments := s.record.comments + 1)),
        ExpiredEvent, "system")
  }

  /** Reading a record expires it lazily. */
  function Fetch(s: State): State {
    if s.record.status == Pending && s.clock >= s.record.expiresAt then MarkExpired(s) else s
  }

  datatype Stage = ApprovalStage | ExecutionStage
  datatype MfaResult = Accepted(counter: int) | Unconfigured | Refused

  function VerifyMfa(record: Record, mfa: Mfa, stage: Stage): MfaResult {
    match mfa
    case NoCode => Refused
    case NotConfigured => Unconfigured
    case WrongCode => Refused
    case Code(c) =>
      var prior := if stage == ApprovalStage then record.approvalCounter else record.executionCounter;
      if prior == Some(c) then Refused
      else if stage == ExecutionStage && record.approvalCounter == Some(c) then Refused
      else Accepted(c)
  }

  function MfaCode(body: Body): Mfa { if body.Parsed? then body.mfa else NoCode }

  function ExpiryWindow(minutes: int): Time { 60 * (if minutes > 1 then minutes else 1) }

  function Approve(s: State, actor: Actor, counter: Option<int>, body: Body, minutes: int): State {
    Log(Save(s, s.record.(
             status := Approved, approvedAt := Some(s.clock), approvedBy := Some(actor),
             approvalMfaVerified := counter.Some?, approvalCounter := counter,
             executionExpiresAt := Some(s.clock + ExpiryWindow(minutes)), lastActionAt := s.clock,
             comments := s.record.comments + CommentCount(body))),
        ApprovedEvent, actor)
  }

  function ApproveWithBody(s: State, task: Task, body: Body, minutes: int): State
    requires task.Approving?
  {
    if body.Malformed? || (task.requireMfa && body.Empty?) then s
    else if !task.requireMfa then Approve(s, task.actor, None, body, minutes)
    else match VerifyMfa(s.record, MfaCode(body), ApprovalStage)
         case Refused => Log(s, ApprovalMfaFailedEvent, task.actor)
         case Unconfigured => s
         case Accepted(c) => Approve(s, task.actor, Some(c), body, minutes)
  }

  function RejectWithBody(s: State, task: Task, body: Body): State
    requires task.Rejecting?
  {
    if body.Malformed? || s.record.status in {Expired, Approved, Executed} then s
    else Log(Save(s, s.record.(
                  status := Rejected, rejectedAt := Some(s.clock), rejectedBy := Some(task.actor),
                  lastActionAt := s.clock, comments := s.record.comments + CommentCount(body))),
             RejectedEvent, task.actor)
  }

  /** The compare-and-set on the row, then the same values written to the shared record. */
  function ClaimToken(s: State, id: nat, actor: Actor, counter: int, body: Body): State {
    if !(s.row.status == Approved && s.row.tokenUsedAt.None?) then Log(s, ReplayRejectedEvent, actor)
    else
      var claimed := Save(s, s.record.(
        status := Executing, executedBy := Some(actor), executionMfaVerified := true,
        executionCounter := Some(counter), tokenUsedAt := Some(s.clock), lastActionAt := s.clock,
        comments := s.record.comments + CommentCount(body)));
      Log(claimed.(
          tasks := s.tasks[id := Running(actor, CommentCount(body) == 1)],
          claims := s.claims + [Claim(actor, s.clock, counter, s.record.approvalCounter,
                                      s.record.expiresAt, s.record.executionExpiresAt)]),
          ExecutingEvent, actor)
  }

  function ExecuteWithBody(s: State, id: nat, task: Task, body: Body): State
    requires task.Requesting?
  {
    var r := s.record;
    if body.Malformed? then s
    else if r.status != Approved then
      if r.status in {Executing, Executed, ExecutionFailed} then Log(s, ReplayRejectedEvent, task.actor) else s
    else if r.approvedBy.Some? && r.approvedBy.value != task.actor then Log(s, TransferRejectedEvent, task.actor)
    else if s.clock >= r.expiresAt then MarkExpired(s)
    else if r.executionExpiresAt.Some? && s.clock >= r.executionExpiresAt.value then MarkExpired(s)
    else if body.Empty? then s
    else match VerifyMfa(r, MfaCode(body), ExecutionStage)
         case Refused => Log(s, ExecutionMfaFailedEvent, task.actor)
         case Unconfigured => Log(s, ExecutionMfaFailedEvent, task.actor)
         case Accepted(c) => ClaimToken(s, id, task.actor, c, body)
  }

  function Complete(s: State, task: Task, succeeded: bool): State
    requires task.Running?
  {
    if succeeded then
      Log(Save(s, s.record.(status := Executed, executedAt := Some(s.clock), lastActionAt := s.clock,
                            comments := s.record.comments + (if task.comment then 1 else 0))),
          ExecutedEvent, task.actor)
    else
      Log(Save(s, s.record.(status := ExecutionFailed, lastActionAt := s.clock)), ExecutionFailedEvent, task.actor)
  }

  // ---------------------------------------------------------------- one segment

  /** An action naming a task that is not waiting for it changes only the clock. */
  function Step(s: State, a: Action): State {
    var now := Tick(s, a.at);
    match a
    case Read(_) => Fetch(now)
    case ForceExpire(_) =>
      var s1 := Fetch(now);
      Save(s1, s1.record.(expiresAt := s1.clock - 300, status := Pending))
    case StartApprove(_, actor, admitted, requireMfa) =>
      var s1 := Fetch(now);
      if !admitted || s1.record.status !in {Pending, Approved} then s1
      else Suspend(s1, Approving(actor, requireMfa))
    case FinishApprove(_, id, body, minutes) =>
      if id in s.tasks && s.tasks[id].Approving?
      then ApproveWithBody(Resume(now, id), s.tasks[id], body, minutes) else now
    case StartReject(_, actor, admitted) =>
      var s1 := Fetch(now);
      if !admitted then s1 else Suspend(s1, Rejecting(actor))
    case FinishReject(_, id, body) =>
      if id in s.tasks && s.tasks[id].Rejecting? then RejectWithBody(Resume(now, id), s.tasks[id], body) else now
    case StartExecute(_, actor, admitted) =>
      var s1 := Fetch(now);
      if !admitted then s1 else Suspend(s1, Requesting(actor))
    case FinishExecute(_, id, body) =>
      if id in s.tasks && s.tasks[id].Requesting? then ExecuteWithBody(Resume(now, id), id, s.tasks[id], body) else now
    case CompleteExecution(_, id, succeeded) =>
      if id in s.tasks && s.tasks[id].Running? then Complete(Resume(now, id), s.tasks[id], succeeded) else now
  }

  /** create_approval: a pending record, written through, with its first audit event. */
  function Create(now: Time, expiryMinutes: int): State {
    var r := Record(Pending, now + 60 * expiryMinutes, None, None, None, None, None, None,
                    false, None, false, None, None, None, now, 1);
    State(r, r, [Event(CreatedEvent, "system", now)], map[], 0, now, [])
  }

  function RunFrom(s: State, actions: seq<Action>): State {
    if actions == [] then s
    else Step(RunFrom(s, actions[..|actions| - 1]), actions[|actions| - 1])
  }

  // ---------------------------------------------------------------- the handlers

  class ApprovalService {
    var record: Record
    var row: Record
    var events: seq<Event>
    var tasks: map<nat, Task>
    var nextTask: nat
    var clock: Time
    ghost var claims: seq<Claim>

    ghost function View(): State
      reads this
    {
      State(record, row, events, tasks, nextTask, clock, claims)
    }

    constructor (now: Time, expiryMinutes: int)
      ensures View() == Create(now, expiryMinutes)
    {
      record := Record(Pending, now + 60 * expiryMinutes, None, None, None, None, None, None,
                       false, None, false, None, None, None, now, 0);
      row := Record(Pending, now + 60 * expiryMinutes, None, None, None, None, None, None,
                    false, None, false, None, None, None, now, 0);
      events, tasks, nextTask, clock, claims := [], map[], 0, now, [];
      new;
      AppendAudit(CreatedEvent, "system", true);
    }

    /** `record[key] = value` for the field that differs in `next`: the assignment persists the whole record. */
    method Store(next: Record)
      modifies this`record, this`row
      ensures record == row == next
    {
      record := next;
      row := record;
    }

    method AppendAudit(kind: EventKind, actor: Actor, comment: bool)
      modifies this`record, this`row, this`events
      ensures events == old(events) + [Event(kind, actor, clock)]
      ensures comment ==> record == row == old(record).(comments := old(record).comments + 1)
      ensures !comment ==> record == old(record) && row == old(row)
    {
      if comment { Store(record.(comments := record.comments + 1)); }
      events := events + [Event(kind, actor, clock)];
    }

    method Advance(at: Time)
      modifies this`clock
      ensures View() == Tick(old(View()), at)
    {
      if at > clock { clock := at; }
    }

    method Expire()
      modifies this`record, this`row, this`events
      ensures View() == MarkExpired(old(View()))
    {
      Store(record.(status := Expired));
      Store(record.(lastActionAt := clock));
      AppendAudit(ExpiredEvent, "system", true);
    }

    method GetApproval()
      modifies this`record, this`row, this`events
      ensures View() == Fetch(old(View()))
    {
      if record.status == Pending && clock >= record.expiresAt {
        Expire();
      }
    }

    method ReadApproval(at: Time)
      modifies this
      ensures View() == Step(old(View()), Read(at))
    {
      Advance(at);
      GetApproval();
    }

    method TestExpireApproval(at: Time)
      modifies this
      ensures View() == Step(old(View()), Action.ForceExpire(at))
    {
      Advance(at);
      GetApproval();
      Store(record.(expiresAt := clock - 300));
      Store(record.(status := Pending));
    }

    method Wait(task: Task)
      modifies this`tasks, this`nextTask
      ensures View() == Suspend(old(View()), task)
    {
      tasks, nextTask := tasks[nextTask := task], nextTask + 1;
    }

    method BeginApprove(at: Time, actor: Actor, admitted: bool, requireMfa: bool)
      modifies this
      ensures View() == Step(old(View()), StartApprove(at, actor, admitted, requireMfa))
    {
      Advance(at);
      GetApproval();
      if !admitted { return; }
      if record.status == Expired { return; }
      if record.status == Rejected { return; }
      if record.status == Executed { return; }
      if record.status == Executing { return; }
      if record.status == ExecutionFailed { return; }
      Wait(Approving(actor, requireMfa));
    }

    method EndApprove(at: Time, id: nat, body: Body, expiryMinutes: int)
      requires id in tasks && tasks[id].Approving?
      modifies this
      ensures View() == Step(old(View()), FinishApprove(at, id, body, expiryMinutes))
    {
      var task := tasks[id];
      Advance(at);
      tasks := tasks - {id};
      if body.Malformed? { return; }
      if task.requireMfa && body.Empty? { return; }
      var verified, counter := false, None;
      if task.requireMfa {
        match VerifyMfa(record, MfaCode(body), ApprovalStage) {
          case Refused =>
            AppendAudit(ApprovalMfaFailedEvent, task.actor, false);
            return;
          case Unconfigured => return;
          case Accepted(c) => verified, counter := true, Some(c);
        }
      }
      Grant(task.actor, verified, counter, body, expiryMinutes);
    }

    method Grant(actor: Actor, verified: bool, counter: Option<int>, body: Body, expiryMinutes: int)
      requires verified == counter.Some?
      modifies this`record, this`row, this`events
      ensures View() == Approve(old(View()), actor, counter, body, expiryMinutes)
    {
      Store(record.(status := Approved));
      Store(record.(approvedAt := Some(clock)));
      Store(record.(approvedBy := Some(actor)));
      Store(record.(approvalMfaVerified := verified));
      Store(record.(approvalCounter := counter));
      Store(record.(executionExpiresAt := Some(clock + ExpiryWindow(expiryMinutes))));
      Store(record.(lastActionAt := clock));
      AppendAudit(ApprovedEvent, actor, body.Parsed? && body.comment);
    }

    method BeginReject(at: Time, actor: Actor, admitted: bool)
      modifies this
      ensures View() == Step(old(View()), StartReject(at, actor, admitted))
    {
      Advance(at);
      GetApproval();
      if !admitted { return; }
      Wait(Rejecting(actor));
    }

    method EndReject(at: Time, id: nat, body: Body)
      requires id in tasks && tasks[id].Rejecting?
      modifies this
      ensures View() == Step(old(View()), FinishReject(at, id, body))
    {
      var task := tasks[id];
      Advance(at);
      tasks := tasks - {id};
      if body.Malformed? { return; }
      if record.status == Expired { return; }
      if record.status == Approved { return; }
      if record.status == Executed { return; }
      Store(record.(status := Rejected));
      Store(record.(rejectedAt := Some(clock)));
      Store(record.(rejectedBy := Some(task.actor)));
      Store(record.(lastActionAt := clock));
      AppendAudit(RejectedEvent, task.actor, body.Parsed? && body.comment);
    }

    method BeginExecute(at: Time, actor: Actor, admitted: bool)
      modifies this
      ensures View() == Step(old(View()), StartExecute(at, actor, admitted))
    {
      Advance(at);
      GetApproval();
      if !admitted { return; }
      Wait(Requesting(actor));
    }

    method EndExecute(at: Time, id: nat, body: Body)
      requires id in tasks && tasks[id].Requesting?
      modifies this
      ensures View() == Step(old(View()), FinishExecute(at, id, body))
    {
      var task := tasks[id];
      Advance(at);
      tasks := tasks - {id};
      if body.Malformed? { return; }
      if record.status != Approved {
        if record.status in {Executing, Executed, ExecutionFailed} {
          AppendAudit(ReplayRejectedEvent, task.actor, false);
        }
        return;
      }
      if record.approvedBy.Some? && record.approvedBy.value != task.actor {
        AppendAudit(TransferRejectedEvent, task.actor, false);
        return;
      }
      if clock >= record.expiresAt {
        Expire();
        return;
      }
      if record.executionExpiresAt.Some? && clock >= record.executionExpiresAt.value {
        Expire();
        return;
      }
      if body.Empty? { return; }
      match VerifyMfa(record, MfaCode(body), ExecutionStage) {
        case Refused => AppendAudit(ExecutionMfaFailedEvent, task.actor, false);
        case Unconfigured => AppendAudit(ExecutionMfaFailedEvent, task.actor, false);
        case Accepted(c) => UseToken(id, task.actor, c, body);
      }
    }

    method UseToken(id: nat, actor: Actor, counter: int, body: Body)
      modifies this
      ensures View() == ClaimToken(old(View()), id, actor, counter, body)
    {
      if !(row.status == Approved && row.tokenUsedAt.None?) {
        AppendAudit(ReplayRejectedEvent, actor, false);
        return;
      }
      row := row.(status := Executing, tokenUsedAt := Some(clock), executionMfaVerified := true,
                  executionCounter := Some(counter), executedBy := Some(actor), lastActionAt := clock);
      claims := claims +
        [Claim(actor, clock, counter, record.approvalCounter, record.expiresAt, record.executionExpiresAt)];
      Store(record.(status := Executing));
      // The write-through has just replaced the claimed row, token and all, by the record, which does not
      // hold the token yet; the segment stores it before anyone else can look.
      assert row.tokenUsedAt == old(record).tokenUsedAt;
      Store(record.(executedBy := Some(actor)));
      Store(record.(executionMfaVerified := true));
      Store(record.(executionCounter := Some(counter)));
      Store(record.(tokenUsedAt := Some(clock)));
      Store(record.(lastActionAt := clock));
      AppendAudit(ExecutingEvent, actor, body.Parsed? && body.comment);
      tasks := tasks[id := Running(actor, body.Parsed? && body.comment)];
    }

    method EndExecution(at: Time, id: nat, succeeded: bool)
      requires id in tasks && tasks[id].Running?
      modifies this
      ensures View() == Step(old(View()), CompleteExecution(at, id, succeeded))
    {
      var task := tasks[id];
      Advance(at);
      tasks := tasks - {id};
      if succeeded {
        Store(record.(status := Executed));
        Store(record.(executedAt := Some(clock)));
        Store(record.(lastActionAt := clock));
        AppendAudit(ExecutedEvent, task.actor, task.comment);
      } else {
        Store(record.(status := ExecutionFailed));
        Store(record.(lastActionAt := clock));
        AppendAudit(ExecutionFailedEvent, task.actor, false);
      }
    }
  }
}
