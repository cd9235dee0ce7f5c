/**
 Event delivery (services/event_pipeline.py): delivery records with a persisted attempt
 counter, dead letters, retry passes and a checkpoint table of cached counts.

 Sinks are an oracle: the n-th delivery attempt of the pipeline gets the reply `sinks(n)`.
 `history` is a ghost record of attempts and of retry resets.
 */
module EventPipeline {
  import opened Options

  type Time = int

  datatype Status = Queued | Delivered | DeadLettered

  /** A row of event_delivery_records, keyed by event id. */
  datatype Record = Record(
    stream: string, payload: string, status: Status, attempts: int,
    createdAt: Time, updatedAt: Time, deliveredAt: Option<Time>)

  /** A row of event_dead_letters, keyed by event id. */
  datatype DeadLetter = DeadLetter(stream: string, payload: string, attempts: int, createdAt: Time)

  datatype Checkpoint = Checkpoint(
    pending: nat, deadLetters: nat, lag: int, lastDeliveredAt: Option<Time>, updatedAt: Time)

  datatype Reply = Reply(kafka: bool, clickhouse: bool)

  datatype Config = Config(maxAttempts: int, kafka: bool, clickhouse: bool)

  datatype Happening = Attempted(id: string, reply: Reply) | WasReset(id: string)

  datatype State = State(
    records: map<string, Record>, deadLetters: map<string, DeadLetter>, checkpoints: map<string, Checkpoint>,
    calls: nat, history: seq<Happening>)

  /** Kafka is asked first, ClickHouse only after it; a sink that is not enabled never fails. */
  predicate Accepted(cfg: Config, reply: Reply) {
    (cfg.kafka ==> reply.kafka) && (cfg.clickhouse ==> reply.clickhouse)
  }

  // ---------------------------------------------------------------- checkpoints

  function PendingIds(records: map<string, Record>, stream: string): set<string> {
    set id | id in records && records[id].stream == stream && records[id].status in {Queued, DeadLettered}
  }

  function DeadIds(records: map<string, Record>, stream: string): set<string> {
    set id | id in records && records[id].stream == stream && records[id].status == DeadLettered
  }

  /** MAX(delivered_at) over the stream's rows. */
  ghost predicate IsLatestDelivery(records: map<string, Record>, stream: string, latest: Option<Time>) {
    && (forall id :: id in records && records[id].stream == stream && records[id].deliveredAt.Some? ==>
          latest.Some? && records[id].deliveredAt.value <= latest.value)
    && (latest.Some? ==>
          exists id :: id in records && records[id].stream == stream && records[id].deliveredAt == latest)
  }

  /** The age of the stream's oldest pending record at some time, or zero. */
  ghost predicate IsLag(records: map<string, Record>, stream: string, at: Time, lag: int) {
    && (PendingIds(records, stream) == {} ==> lag == 0)
    && (PendingIds(records, stream) != {} ==>
          exists id :: id in PendingIds(records, stream) && lag == at - records[id].createdAt)
    && (forall id :: id in PendingIds(records, stream) ==> at - records[id].createdAt <= lag)
  }

  /** The cached row equals a recount of the delivery table, with the lag as of its own update. */
  ghost predicate IsRecount(c: Checkpoint, records: map<string, Record>, stream: string) {
    && c.pending == |PendingIds(records, stream)|
    && c.deadLetters == |DeadIds(records, stream)|
    && IsLatestDelivery(records, stream, c.lastDeliveredAt)
    && IsLag(records, stream, c.updatedAt, c.lag)
  }

  // ---------------------------------------------------------------- one delivery

  /** The attempts left for an event: the replies it meets, up to and including the first acceptance. */
  function Tries(cfg: Config, sinks: nat -> Reply, attempts: int, calls: nat): (n: nat)
    ensures attempts <= cfg.maxAttempts ==> attempts + n <= cfg.maxAttempts
    ensures attempts > cfg.maxAttempts ==> n == 0
    decreases cfg.maxAttempts - attempts
  {
    if attempts >= cfg.maxAttempts then 0
    else if Accepted(cfg, sinks(calls)) then 1
    else 1 + Tries(cfg, sinks, attempts + 1, calls + 1)
  }

  predicate Succeeds(cfg: Config, sinks: nat -> Reply, attempts: int, calls: nat)
    decreases cfg.maxAttempts - attempts
  {
    attempts < cfg.maxAttempts && (Accepted(cfg, sinks(calls)) || Succeeds(cfg, sinks, attempts + 1, calls + 1))
  }

  function Attempts(sinks: nat -> Reply, id: string, calls: nat, n: nat): (h: seq<Happening>)
    ensures |h| == n && forall i :: 0 <= i < n ==> h[i] == Attempted(id, sinks(calls + i))
  {
    seq(n, i requires 0 <= i < n => Attempted(id, sinks(calls + i)))
  }

  /** The update after the delivery loop, for a record that exists. */
  function Settle(cfg: Config, sinks: nat -> Reply, s: State, id: string, now: Time): State
    requires id in s.records
  {
    var r := s.records[id];
    var n := Tries(cfg, sinks, r.attempts, s.calls);
    var ok := Succeeds(cfg, sinks, r.attempts, s.calls);
    var attempts := r.attempts + n;
    State(
      s.records[id := r.(status := if ok then Delivered else DeadLettered, attempts := attempts,
                         deliveredAt := if ok then Some(now) else r.deliveredAt, updatedAt := now)],
      if ok then s.deadLetters
      else if id in s.deadLetters then s.deadLetters[id := s.deadLetters[id].(attempts := attempts)]
      else s.deadLetters[id := DeadLetter(r.stream, r.payload, attempts, now)],
      s.checkpoints,
      s.calls + n,
      s.history + Attempts(sinks, id, s.calls, n))
  }

  /** Only the stream's checkpoint is replaced, by an exact recount. */
  ghost predicate Refreshed(s: State, next: State, stream: string, now: Time) {
    && next == s.(checkpoints := next.checkpoints)
    && stream in next.checkpoints && next.checkpoints == s.checkpoints[stream := next.checkpoints[stream]]
    && IsRecount(next.checkpoints[stream], s.records, stream) && next.checkpoints[stream].updatedAt == now
  }

  /** deliver_event: settle the record, then refresh its stream's checkpoint; a missing record changes nothing. */
  ghost predicate DeliveredTo(cfg: Config, sinks: nat -> Reply, s: State, next: State, id: string, now: Time) {
    if id in s.records then Refreshed(Settle(cfg, sinks, s, id, now), next, s.records[id].stream, now) else next == s
  }

  /** The insert of record_and_deliver; on conflict only the payload and the time of update change. */
  function Upsert(s: State, id: string, stream: string, payload: string, now: Time): State {
    s.(records := s.records[id :=
      if id in s.records then s.records[id].(payload := payload, updatedAt := now)
      else Record(stream, payload, Queued, 0, now, now, None)])
  }

  function Reset(s: State, id: string): State
    requires id in s.records
  {
    s.(records := s.records[id := s.records[id].(status := Queued, attempts := 0)],
        history := s.history + [WasReset(id)])
  }

  // ---------------------------------------------------------------- the retry pass

  function DeadLetterIds(s: State): set<string> {
    set id | id in s.records && s.records[id].status == DeadLettered
  }

  /** `ORDER BY updated_at ASC LIMIT :limit` over the dead letters. */
  ghost predicate IsRetryBatch(s: State, ids: seq<string>, limit: nat) {
    && (forall i, j :: 0 <= i < j < |ids| ==> ids[i] != ids[j])
    && (forall i :: 0 <= i < |ids| ==> ids[i] in DeadLetterIds(s))
    && |ids| == (if limit < |DeadLetterIds(s)| then limit else |DeadLetterIds(s)|)
    && (forall i, j :: 0 <= i < j < |ids| ==> s.records[ids[i]].updatedAt <= s.records[ids[j]].updatedAt)
    && (forall i, id :: 0 <= i < |ids| && id in DeadLetterIds(s) && id !in ids ==>
          s.records[ids[i]].updatedAt <= s.records[id].updatedAt)
  }

  // ---------------------------------------------------------------- the invariant

  function SinceReset(history: seq<Happening>, id: string): nat {
    if history == [] then 0
    else
      var before, last := history[..|history| - 1], history[|history| - 1];
      if last == WasReset(id) then 0
      else SinceReset(before, id) + (if last.Attempted? && last.id == id then 1 else 0)
  }

  ghost predicate WasAccepted(cfg: Config, history: seq<Happening>, id: string) {
    exists k :: 0 <= k < |history| && history[k].Attempted? && history[k].id == id && Accepted(cfg, history[k].reply)
  }

  ghost predicate RecordInv(cfg: Config, s: State, id: string)
    requires id in s.records
  {
    var r := s.records[id];
    && 0 <= r.attempts == SinceReset(s.history, id)
    && (r.attempts <= cfg.maxAttempts || r.attempts == 0)
    && (r.deliveredAt.Some? ==> WasAccepted(cfg, s.history, id))
  }

  ghost predicate SettledInv(s: State, id: string)
    requires id in s.records
  {
    var r := s.records[id];
    && r.status != Queued
    && (r.status == Delivered ==> r.deliveredAt.Some?)
    && (r.status == DeadLettered ==> id in s.deadLetters && s.deadLetters[id].attempts == r.attempts)
  }

  ghost predicate CheckpointInv(s: State, stream: string) {
    (exists id :: id in s.records && s.records[id].stream == stream) ==>
      stream in s.checkpoints && IsRecount(s.checkpoints[stream], s.records, stream)
  }

  /** What holds while `busy` is between its insert or reset and its delivery. */
  ghost predicate InvBut(cfg: Config, s: State, busy: set<string>) {
    && (forall id :: id in s.records ==> RecordInv(cfg, s, id))
    && (forall id :: id in s.records && id !in busy ==> SettledInv(s, id))
    && (forall stream :: (forall id :: id in busy && id in s.records ==> s.records[id].stream != stream) ==>
        CheckpointInv(s, stream))
    && (forall k :: 0 <= k < |s.history| ==> s.history[k].id in s.records)
  }

  ghost predicate Inv(cfg: Config, s: State) { InvBut(cfg, s, {}) }

  lemma {:induction false} NeverSeenNeverTried(history: seq<Happening>, id: string)
    requires forall k :: 0 <= k < |history| ==> history[k].id != id
    ensures SinceReset(history, id) == 0
  {
    if history != [] { NeverSeenNeverTried(history[..|history| - 1], id); }
  }

  lemma {:induction false} OneMoreHappening(history: seq<Happening>, last: Happening, id: string)
    ensures SinceReset(history + [last], id)
         == if last == WasReset(id) then 0
            else SinceReset(history, id) + (if last.Attempted? && last.id == id then 1 else 0)
  {
    assert (history + [last])[..|history|] == history;
  }

  lemma {:induction false} OneMoreAttempt(
    sinks: nat -> Reply, history: seq<Happening>, id: string, calls: nat, n: nat)
    ensures history + Attempts(sinks, id, calls, n + 1)
         == history + Attempts(sinks, id, calls, n) + [Attempted(id, sinks(calls + n))]
  {
  }

  lemma {:induction false} AttemptsAreCounted(
    sinks: nat -> Reply, history: seq<Happening>, id: string, calls: nat, n: nat, other: string)
    ensures SinceReset(history + Attempts(sinks, id, calls, n), other)
         == SinceReset(history, other) + if other == id then n else 0
  {
    if n == 0 {
      assert history + Attempts(sinks, id, calls, 0) == history;
    } else {
      AttemptsAreCounted(sinks, history, id, calls, n - 1, other);
      OneMoreAttempt(sinks, history, id, calls, n - 1);
      OneMoreHappening(history + Attempts(sinks, id, calls, n - 1), Attempted(id, sinks(calls + n - 1)), other);
    }
  }

  lemma {:induction false} ResetIsCounted(history: seq<Happening>, id: string)
    ensures SinceReset(history + [WasReset(id)], id) == 0
    ensures forall other :: other != id ==> SinceReset(history + [WasReset(id)], other) == SinceReset(history, other)
  {
    assert (history + [WasReset(id)])[..|history|] == history;
  }

  /** A successful delivery ends with an attempt that every enabled sink accepted. */
  lemma {:induction false} SuccessIsLastTry(cfg: Config, sinks: nat -> Reply, attempts: int, calls: nat)
    ensures var n := Tries(cfg, sinks, attempts, calls);
            Succeeds(cfg, sinks, attempts, calls) ==> n > 0 && Accepted(cfg, sinks(calls + n - 1))
    decreases cfg.maxAttempts - attempts
  {
    if attempts < cfg.maxAttempts && !Accepted(cfg, sinks(calls)) {
      SuccessIsLastTry(cfg, sinks, attempts + 1, calls + 1);
    }
  }

  lemma {:induction false} MoreHistoryKeepsAcceptance(
    cfg: Config, history: seq<Happening>, more: seq<Happening>, id: string)
    requires WasAccepted(cfg, history, id)
    ensures WasAccepted(cfg, history + more, id)
  {
    var k :| 0 <= k < |history| && history[k].Attempted? && history[k].id == id && Accepted(cfg, history[k].reply);
    assert (history + more)[k] == history[k];
  }

  lemma {:induction false} LastTryIsAccepted(
    cfg: Config, sinks: nat -> Reply, history: seq<Happening>, id: string, attempts: int, calls: nat)
    requires Succeeds(cfg, sinks, attempts, calls)
    ensures WasAccepted(cfg, history + Attempts(sinks, id, calls, Tries(cfg, sinks, attempts, calls)), id)
  {
    var n := Tries(cfg, sinks, attempts, calls);
    SuccessIsLastTry(cfg, sinks, attempts, calls);
    assert (history + Attempts(sinks, id, calls, n))[|history| + n - 1] == Attempted(id, sinks(calls + n - 1));
  }

  lemma {:induction false} SettleKeepsOwnRecord(cfg: Config, sinks: nat -> Reply, s: State, id: string, now: Time)
    requires id in s.records && RecordInv(cfg, s, id)
    ensures RecordInv(cfg, Settle(cfg, sinks, s, id, now), id)
  {
    var r := s.records[id];
    var n := Tries(cfg, sinks, r.attempts, s.calls);
    AttemptsAreCounted(sinks, s.history, id, s.calls, n, id);
    if Succeeds(cfg, sinks, r.attempts, s.calls) {
      LastTryIsAccepted(cfg, sinks, s.history, id, r.attempts, s.calls);
    } else if r.deliveredAt.Some? {
      MoreHistoryKeepsAcceptance(cfg, s.history, Attempts(sinks, id, s.calls, n), id);
    }
  }

  lemma {:induction false} OtherRecordStays(
    cfg: Config, sinks: nat -> Reply, s: State, id: string, now: Time, other: string)
    requires id in s.records && other in s.records && other != id
    ensures var t := Settle(cfg, sinks, s, id, now);
            && other in t.records && t.records[other] == s.records[other]
            && t.history == s.history + Attempts(sinks, id, s.calls, Tries(cfg, sinks, s.records[id].attempts, s.calls))
  {
  }

  lemma {:induction false} SameRecordInv(cfg: Config, s: State, t: State, id: string)
    requires id in s.records && RecordInv(cfg, s, id) && id in t.records && t.records[id] == s.records[id]
    requires SinceReset(t.history, id) == SinceReset(s.history, id)
    requires s.records[id].deliveredAt.Some? ==> WasAccepted(cfg, t.history, id)
    ensures RecordInv(cfg, t, id)
  {
  }

  lemma {:induction false} SettleKeepsOtherRecord(
    cfg: Config, sinks: nat -> Reply, s: State, id: string, now: Time, other: string)
    requires id in s.records && other in s.records && other != id && RecordInv(cfg, s, other)
    ensures RecordInv(cfg, Settle(cfg, sinks, s, id, now), other)
  {
    var n := Tries(cfg, sinks, s.records[id].attempts, s.calls);
    AttemptsAreCounted(sinks, s.history, id, s.calls, n, other);
    if s.records[other].deliveredAt.Some? {
      MoreHistoryKeepsAcceptance(cfg, s.history, Attempts(sinks, id, s.calls, n), other);
    }
    OtherRecordStays(cfg, sinks, s, id, now, other);
    SameRecordInv(cfg, s, Settle(cfg, sinks, s, id, now), other);
  }

  lemma {:induction false} SameStreamRows(records: map<string, Record>, id: string, r: Record, stream: string)
    requires id in records ==> records[id].stream == r.stream
    requires stream != r.stream
    ensures PendingIds(records[id := r], stream) == PendingIds(records, stream)
    ensures DeadIds(records[id := r], stream) == DeadIds(records, stream)
    ensures id !in PendingIds(records, stream)
  {
  }

  lemma {:induction false} SameLatestDelivery(
    records: map<string, Record>, id: string, r: Record, stream: string, latest: Option<Time>)
    requires id in records ==> records[id].stream == r.stream
    requires stream != r.stream && IsLatestDelivery(records, stream, latest)
    ensures IsLatestDelivery(records[id := r], stream, latest)
  {
    if latest.Some? {
      var k :| k in records && records[k].stream == stream && records[k].deliveredAt == latest;
      assert k in records[id := r];
    }
  }

  lemma {:induction false} SameLag(
    records: map<string, Record>, id: string, r: Record, stream: string, at: Time, lag: int)
    requires PendingIds(records[id := r], stream) == PendingIds(records, stream) && id !in PendingIds(records, stream)
    requires IsLag(records, stream, at, lag)
    ensures IsLag(records[id := r], stream, at, lag)
  {
    if PendingIds(records, stream) != {} {
      var k :| k in PendingIds(records, stream) && lag == at - records[k].createdAt;
      assert k in PendingIds(records[id := r], stream);
    }
  }

  lemma {:induction false} OtherStreamsUnchanged(
    records: map<string, Record>, id: string, r: Record, stream: string, c: Checkpoint)
    requires id in records ==> records[id].stream == r.stream
    requires stream != r.stream && IsRecount(c, records, stream)
    ensures IsRecount(c, records[id := r], stream)
  {
    SameStreamRows(records, id, r, stream);
    SameLatestDelivery(records, id, r, stream, c.lastDeliveredAt);
    SameLag(records, id, r, stream, c.updatedAt, c.lag);
  }

  /** Changing one row leaves the other streams' checkpoints exact. */
  lemma {:induction false} UpdateKeepsCheckpoints(s: State, records: map<string, Record>, id: string, stream: string)
    requires id in records && records == s.records[id := records[id]]
    requires id in s.records ==> s.records[id].stream == records[id].stream
    requires stream != records[id].stream && CheckpointInv(s, stream)
    ensures CheckpointInv(s.(records := records), stream)
  {
    if k :| k in records && records[k].stream == stream {
      assert k in s.records && s.records[k].stream == stream;
      OtherStreamsUnchanged(s.records, id, records[id], stream, s.checkpoints[stream]);
    }
  }

  lemma {:induction false} DeliveryRestoresRecords(
    cfg: Config, sinks: nat -> Reply, s: State, id: string, now: Time, other: string)
    requires InvBut(cfg, s, {id}) && id in s.records && other in s.records
    ensures RecordInv(cfg, Settle(cfg, sinks, s, id, now), other)
    ensures SettledInv(Settle(cfg, sinks, s, id, now), other)
  {
    assert RecordInv(cfg, s, other);
    if other == id {
      SettleKeepsOwnRecord(cfg, sinks, s, id, now);
    } else {
      assert SettledInv(s, other);
      SettleKeepsOtherRecord(cfg, sinks, s, id, now, other);
    }
  }

  lemma {:induction false} DeliveryRestoresCheckpoints(
    cfg: Config, sinks: nat -> Reply, s: State, next: State, id: string, now: Time, stream: string)
    requires InvBut(cfg, s, {id}) && id in s.records && DeliveredTo(cfg, sinks, s, next, id, now)
    ensures CheckpointInv(next, stream)
  {
    var settled := Settle(cfg, sinks, s, id, now);
    if stream != s.records[id].stream {
      assert CheckpointInv(s, stream);
      UpdateKeepsCheckpoints(s, settled.records, id, stream);
      assert CheckpointInv(s.(records := settled.records), stream);
    }
  }

  lemma {:induction false} DeliveryRestoresInv(
    cfg: Config, sinks: nat -> Reply, s: State, next: State, id: string, now: Time)
    requires InvBut(cfg, s, {id}) && DeliveredTo(cfg, sinks, s, next, id, now)
    ensures Inv(cfg, next)
  {
    if id in s.records {
      var settled := Settle(cfg, sinks, s, id, now);
      forall other | other in next.records ensures RecordInv(cfg, next, other) && SettledInv(next, other) {
        DeliveryRestoresRecords(cfg, sinks, s, id, now, other);
        assert next.records == settled.records && next.history == settled.history
            && next.deadLetters == settled.deadLetters;
      }
      forall stream ensures CheckpointInv(next, stream) {
        DeliveryRestoresCheckpoints(cfg, sinks, s, next, id, now, stream);
      }
    }
  }

  lemma {:induction false} UpsertKeepsInvBut(
    cfg: Config, s: State, id: string, stream: string, payload: string, now: Time)
    requires Inv(cfg, s)
    ensures InvBut(cfg, Upsert(s, id, stream, payload, now), {id})
  {
    var next := Upsert(s, id, stream, payload, now);
    if id !in s.records { NeverSeenNeverTried(s.history, id); }
    forall other | other in next.records ensures RecordInv(cfg, next, other) {
      assert other != id ==> RecordInv(cfg, s, other);
      assert id in s.records ==> RecordInv(cfg, s, id);
    }
    forall other | other in next.records && other != id ensures SettledInv(next, other) { assert SettledInv(s, other); }
    forall stream' | next.records[id].stream != stream' ensures CheckpointInv(next, stream') {
      UpdateKeepsCheckpoints(s, next.records, id, stream');
    }
  }

  lemma {:induction false} ResetKeepsInvBut(cfg: Config, s: State, id: string)
    requires Inv(cfg, s) && id in s.records
    ensures InvBut(cfg, Reset(s, id), {id})
  {
    var next := Reset(s, id);
    ResetIsCounted(s.history, id);
    forall other | other in next.records ensures RecordInv(cfg, next, other) {
      assert RecordInv(cfg, s, other);
      if s.records[other].deliveredAt.Some? { MoreHistoryKeepsAcceptance(cfg, s.history, [WasReset(id)], other); }
    }
    forall other | other in next.records && other != id ensures SettledInv(next, other) { assert SettledInv(s, other); }
    forall stream | next.records[id].stream != stream ensures CheckpointInv(next, stream) {
      UpdateKeepsCheckpoints(s, next.records, id, stream);
      assert CheckpointInv(s.(records := next.records), stream);
    }
  }

  // ---------------------------------------------------------------- operations and runs

  datatype Op =
    | Ingest(id: string, stream: string, payload: string, at: Time)
    | Redeliver(id: string, at: Time)
    | RetryPass(limit: nat, batch: seq<string>, at: Time)

  /** The batch is reset and delivered one event at a time. */
  ghost predicate RetriesTo(cfg: Config, sinks: nat -> Reply, s: State, next: State, batch: seq<string>, now: Time)
    decreases |batch|
  {
    if batch == [] then next == s
    else
      var id := batch[|batch| - 1];
      exists mid: State ::
        RetriesTo(cfg, sinks, s, mid, batch[..|batch| - 1], now)
        && id in mid.records && DeliveredTo(cfg, sinks, Reset(mid, id), next, id, now)
  }

  ghost predicate Performs(cfg: Config, sinks: nat -> Reply, s: State, next: State, op: Op) {
    match op
    case Ingest(id, stream, payload, at) => DeliveredTo(cfg, sinks, Upsert(s, id, stream, payload, at), next, id, at)
    case Redeliver(id, at) => DeliveredTo(cfg, sinks, s, next, id, at)
    case RetryPass(limit, batch, at) => IsRetryBatch(s, batch, limit) && RetriesTo(cfg, sinks, s, next, batch, at)
  }

  const EMPTY := State(map[], map[], map[], 0, [])

  ghost predicate IsRun(cfg: Config, sinks: nat -> Reply, states: seq<State>, ops: seq<Op>) {
    && |states| == |ops| + 1 && states[0] == EMPTY
    && forall i :: 0 <= i < |ops| ==> Performs(cfg, sinks, states[i], states[i + 1], ops[i])
  }

  lemma {:induction false} RetriesKeepInv(
    cfg: Config, sinks: nat -> Reply, s: State, next: State, batch: seq<string>, now: Time)
    requires Inv(cfg, s) && RetriesTo(cfg, sinks, s, next, batch, now)
    ensures Inv(cfg, next)
    decreases |batch|
  {
    if batch != [] {
      var id := batch[|batch| - 1];
      var mid: State :| RetriesTo(cfg, sinks, s, mid, batch[..|batch| - 1], now)
                        && id in mid.records && DeliveredTo(cfg, sinks, Reset(mid, id), next, id, now);
      RetriesKeepInv(cfg, sinks, s, mid, batch[..|batch| - 1], now);
      ResetKeepsInvBut(cfg, mid, id);
      DeliveryRestoresInv(cfg, sinks, Reset(mid, id), next, id, now);
    }
  }

  lemma {:induction false} OperationKeepsInv(cfg: Config, sinks: nat -> Reply, s: State, next: State, op: Op)
    requires Inv(cfg, s) && Performs(cfg, sinks, s, next, op)
    ensures Inv(cfg, next)
  {
    match op
    case Ingest(id, stream, payload, at) =>
      UpsertKeepsInvBut(cfg, s, id, stream, payload, at);
      DeliveryRestoresInv(cfg, sinks, Upsert(s, id, stream, payload, at), next, id, at);
    case Redeliver(id, at) => DeliveryRestoresInv(cfg, sinks, s, next, id, at);
    case RetryPass(limit, batch, at) => RetriesKeepInv(cfg, sinks, s, next, batch, at);
  }

  lemma {:induction false} RunKeepsInv(cfg: Config, sinks: nat -> Reply, states: seq<State>, ops: seq<Op>, i: nat)
    requires IsRun(cfg, sinks, states, ops) && i < |states|
    ensures Inv(cfg, states[i])
  {
    if i > 0 {
      RunKeepsInv(cfg, sinks, states, ops, i - 1);
      OperationKeepsInv(cfg, sinks, states[i - 1], states[i], ops[i - 1]);
    }
  }

  // ---------------------------------------------------------------- main results

  /** However often an event is recorded again, between two retry resets it is attempted at most `maxAttempts` times. */
  lemma {:induction false} AttemptsAreBounded(
    cfg: Config, sinks: nat -> Reply, states: seq<State>, ops: seq<Op>, i: nat, id: string)
    requires IsRun(cfg, sinks, states, ops) && i < |states|
    ensures SinceReset(states[i].history, id) <= if cfg.maxAttempts > 0 then cfg.maxAttempts else 0
    ensures id in states[i].records ==> states[i].records[id].attempts == SinceReset(states[i].history, id)
  {
    RunKeepsInv(cfg, sinks, states, ops, i);
    if id in states[i].records {
      assert RecordInv(cfg, states[i], id);
    } else {
      NeverSeenNeverTried(states[i].history, id);
    }
  }

  /**
   A recorded delivery was accepted by every enabled sink; a dead-letter status has its dead-letter row; nothing
   stays queued.
   */
  lemma {:induction false} RecordsAreHonest(
    cfg: Config, sinks: nat -> Reply, states: seq<State>, ops: seq<Op>, i: nat, id: string)
    requires IsRun(cfg, sinks, states, ops) && i < |states| && id in states[i].records
    ensures var s := states[i];
            var r := s.records[id];
            && (r.deliveredAt.Some? ==>
                  exists k :: 0 <= k < |s.history| && s.history[k].Attempted? && s.history[k].id == id
                              && (cfg.kafka ==> s.history[k].reply.kafka)
                              && (cfg.clickhouse ==> s.history[k].reply.clickhouse))
            && (r.status == Delivered ==> r.deliveredAt.Some?)
            && (r.status == DeadLettered ==> id in s.deadLetters && s.deadLetters[id].attempts == r.attempts)
            && r.status != Queued
  {
    RunKeepsInv(cfg, sinks, states, ops, i);
    assert RecordInv(cfg, states[i], id) && SettledInv(states[i], id);
  }

  predicate IsDeadIn(s: State, stream: string, id: string) {
    id in s.records && s.records[id].stream == stream && s.records[id].status == DeadLettered
  }

  /**
   After every operation a stream's checkpoint counts its dead letters, which are all that is pending, and shows the age
   of the oldest of them and the time of the stream's latest delivery.
   */
  lemma {:induction false} CheckpointsAreExact(
    cfg: Config, sinks: nat -> Reply, states: seq<State>, ops: seq<Op>, i: nat, id: string)
    requires IsRun(cfg, sinks, states, ops) && i < |states| && id in states[i].records
    ensures var s := states[i];
            var stream := s.records[id].stream;
            stream in s.checkpoints &&
            var c := s.checkpoints[stream];
            && c.pending == c.deadLetters == |set k | k in s.records && IsDeadIn(s, stream, k)|
            && (forall k :: IsDeadIn(s, stream, k) ==> c.updatedAt - s.records[k].createdAt <= c.lag)
            && (if exists k :: IsDeadIn(s, stream, k)
                then exists k :: IsDeadIn(s, stream, k) && c.updatedAt - s.records[k].createdAt == c.lag
                else c.lag == 0)
            && (forall k :: k in s.records && s.records[k].stream == stream && s.records[k].deliveredAt.Some? ==>
                  c.lastDeliveredAt.Some? && s.records[k].deliveredAt.value <= c.lastDeliveredAt.value)
            && (c.lastDeliveredAt.Some? ==>
                  exists k :: k in s.records && s.records[k].stream == stream
                              && s.records[k].deliveredAt == c.lastDeliveredAt)
  {
    RunKeepsInv(cfg, sinks, states, ops, i);
    var s := states[i];
    var stream := s.records[id].stream;
    assert CheckpointInv(s, stream);
    forall k | k in PendingIds(s.records, stream) ensures k in DeadIds(s.records, stream) { assert SettledInv(s, k); }
    assert PendingIds(s.records, stream) == DeadIds(s.records, stream);
    assert DeadIds(s.records, stream) == set k | k in s.records && IsDeadIn(s, stream, k);
    forall k ensures IsDeadIn(s, stream, k) <==> k in DeadIds(s.records, stream) { }
  }

  predicate AcceptedAt(cfg: Config, sinks: nat -> Reply, n: nat) { Accepted(cfg, sinks(n)) }

  lemma {:induction false} SucceedsIff(cfg: Config, sinks: nat -> Reply, attempts: int, calls: nat)
    ensures Succeeds(cfg, sinks, attempts, calls)
       <==> exists n: nat :: calls <= n < calls + (cfg.maxAttempts - attempts) && AcceptedAt(cfg, sinks, n)
    decreases cfg.maxAttempts - attempts
  {
    if attempts < cfg.maxAttempts {
      SucceedsIff(cfg, sinks, attempts + 1, calls + 1);
      assert AcceptedAt(cfg, sinks, calls) == Accepted(cfg, sinks(calls));
    }
  }

  /**
   "Delivered" is not final: recording a known event again delivers it again.  It ends up delivered if and
   only if one of the attempts it has left is accepted; with none left it becomes a dead letter,
   although its delivery time stays.
   */
  lemma {:induction false} RecordedAgainStaysDeliveredIff(
    cfg: Config, sinks: nat -> Reply, s: State, next: State, op: Op)
    requires op.Ingest? && op.id in s.records && Performs(cfg, sinks, s, next, op)
    ensures var left := cfg.maxAttempts - s.records[op.id].attempts;
            && (next.records[op.id].status == Delivered
                <==> exists n: nat :: s.calls <= n < s.calls + left && AcceptedAt(cfg, sinks, n))
            && (left <= 0 ==> next.records[op.id].status == DeadLettered && next.calls == s.calls
                              && next.records[op.id].deliveredAt == s.records[op.id].deliveredAt)
  {
    SucceedsIff(cfg, sinks, s.records[op.id].attempts, s.calls);
  }

  function AlwaysAccepting(): nat -> Reply { n => Reply(true, true) }

  /** The recount of a table with one record, delivered at its creation time. */
  lemma {:induction false} RecountOfOne(id: string, r: Record, c: Checkpoint)
    requires r.status != Queued && r.deliveredAt == Some(r.createdAt) && c.updatedAt == r.createdAt
    requires c == Checkpoint(if r.status == DeadLettered then 1 else 0, if r.status == DeadLettered then 1 else 0, 0,
                             r.deliveredAt, c.updatedAt)
    ensures IsRecount(c, map[id := r], r.stream)
  {
    var records := map[id := r];
    assert PendingIds(records, r.stream) == (if r.status == DeadLettered then {id} else {});
    assert DeadIds(records, r.stream) == (if r.status == DeadLettered then {id} else {});
    assert id in records;
    if r.status == DeadLettered { assert id in PendingIds(records, r.stream); }
  }

  function OneRecord(id: string, r: Record, dead: map<string, DeadLetter>, calls: nat, history: seq<Happening>): State {
    var n := if r.status == DeadLettered then 1 else 0;
    State(map[id := r], dead, map[r.stream := Checkpoint(n, n, 0, r.deliveredAt, r.createdAt)], calls, history)
  }

  /**
   A run in which a delivered event turns into a dead letter: one attempt is allowed, every sink always
   accepts, and the same event is recorded twice.
   */
  lemma {:induction false} DeliveredEventBecomesDeadLetter(id: string, stream: string, payload: string, at: Time)
    returns (states: seq<State>)
    ensures var op := Ingest(id, stream, payload, at); IsRun(Config(1, true, true), AlwaysAccepting(), states, [op, op])
    ensures id in states[1].records && states[1].records[id].status == Delivered
    ensures id in states[2].records && states[2].records[id].status == DeadLettered && id in states[2].deadLetters
    ensures states[2].records[id].deliveredAt == Some(at)
  {
    var r1 := Record(stream, payload, Delivered, 1, at, at, Some(at));
    var r2 := r1.(status := DeadLettered);
    var history := [Attempted(id, Reply(true, true))];
    var s1 := OneRecord(id, r1, map[], 1, history);
    var s2 := OneRecord(id, r2, map[id := DeadLetter(stream, payload, 1, at)], 1, history);
    FirstIsDelivered(id, r1, at, s1);
    SecondIsDead(id, r1, at, s1, s2);
    states := [EMPTY, s1, s2];
  }

  lemma {:induction false} FirstIsDelivered(id: string, r1: Record, at: Time, s1: State)
    requires r1 == Record(r1.stream, r1.payload, Delivered, 1, at, at, Some(at))
    requires s1 == OneRecord(id, r1, map[], 1, [Attempted(id, Reply(true, true))])
    ensures Performs(Config(1, true, true), AlwaysAccepting(), EMPTY, s1, Ingest(id, r1.stream, r1.payload, at))
  {
    var cfg, sinks := Config(1, true, true), AlwaysAccepting();
    var u := Upsert(EMPTY, id, r1.stream, r1.payload, at);
    assert Tries(cfg, sinks, 0, 0) == 1 && Succeeds(cfg, sinks, 0, 0);
    assert Attempts(sinks, id, 0, 1) == [Attempted(id, Reply(true, true))];
    assert [] + Attempts(sinks, id, 0, 1) == s1.history;
    var settled := Settle(cfg, sinks, u, id, at);
    assert settled.records == map[id := r1];
    RecountOfOne(id, r1, s1.checkpoints[r1.stream]);
    assert settled == s1.(checkpoints := map[]);
  }

  lemma {:induction false} SecondIsDead(id: string, r1: Record, at: Time, s1: State, s2: State)
    requires r1 == Record(r1.stream, r1.payload, Delivered, 1, at, at, Some(at))
    requires s1 == OneRecord(id, r1, map[], 1, [Attempted(id, Reply(true, true))])
    requires s2 == OneRecord(id, r1.(status := DeadLettered), map[id := DeadLetter(r1.stream, r1.payload, 1, at)], 1,
        s1.history)
    ensures Performs(Config(1, true, true), AlwaysAccepting(), s1, s2, Ingest(id, r1.stream, r1.payload, at))
  {
    var cfg, sinks := Config(1, true, true), AlwaysAccepting();
    var u := Upsert(s1, id, r1.stream, r1.payload, at);
    assert u.records == map[id := r1];
    assert Tries(cfg, sinks, 1, 1) == 0 && !Succeeds(cfg, sinks, 1, 1);
    assert s1.history + Attempts(sinks, id, 1, 0) == s1.history;
    var r2 := r1.(status := DeadLettered);
    var settled := Settle(cfg, sinks, u, id, at);
    assert settled.records == map[id := r2];
    RecountOfOne(id, r2, s2.checkpoints[r1.stream]);
    assert settled == s2.(checkpoints := s1.checkpoints);
    assert s2.checkpoints == s1.checkpoints[r1.stream := s2.checkpoints[r1.stream]];
  }

  ghost predicate SameRecords(s: State, next: State, besides: seq<string>) {
    && next.records.Keys == s.records.Keys
    && forall id :: id in s.records && id !in besides ==> next.records[id] == s.records[id]
  }

  ghost predicate Unqueued(s: State, ids: seq<string>) {
    forall id :: id in ids ==> id in s.records && s.records[id].status != Queued
  }

  lemma {:induction false} LastRetry(
    cfg: Config, sinks: nat -> Reply, s: State, next: State, batch: seq<string>, now: Time) returns (mid: State)
    requires batch != [] && RetriesTo(cfg, sinks, s, next, batch, now)
    ensures RetriesTo(cfg, sinks, s, mid, batch[..|batch| - 1], now)
    ensures var id := batch[|batch| - 1];
            id in mid.records && id in next.records && next.records == mid.records[id := next.records[id]]
                && next.records[id].status != Queued
  {
    var id := batch[|batch| - 1];
    mid :| RetriesTo(cfg, sinks, s, mid, batch[..|batch| - 1], now)
           && id in mid.records && DeliveredTo(cfg, sinks, Reset(mid, id), next, id, now);
    OneDelivery(cfg, sinks, mid, next, id, now);
  }

  lemma {:induction false} RetriesTouchOnlyTheBatch(
    cfg: Config, sinks: nat -> Reply, s: State, next: State, batch: seq<string>, now: Time)
    requires RetriesTo(cfg, sinks, s, next, batch, now)
    ensures SameRecords(s, next, batch) && Unqueued(next, batch)
    decreases |batch|
  {
    if batch != [] {
      var mid := LastRetry(cfg, sinks, s, next, batch, now);
      RetriesTouchOnlyTheBatch(cfg, sinks, s, mid, batch[..|batch| - 1], now);
      TouchOneMore(s, mid, next, batch);
    }
  }

  /** A reset and delivery changes one record, and leaves it delivered or dead-lettered. */
  lemma {:induction false} OneDelivery(cfg: Config, sinks: nat -> Reply, s: State, next: State, id: string, now: Time)
    requires id in s.records && DeliveredTo(cfg, sinks, Reset(s, id), next, id, now)
    ensures id in next.records && next.records == s.records[id := next.records[id]] && next.records[id].status != Queued
  {
  }

  lemma {:induction false} TouchOneMore(s: State, mid: State, next: State, batch: seq<string>)
    requires batch != [] && SameRecords(s, mid, batch[..|batch| - 1]) && Unqueued(mid, batch[..|batch| - 1])
    requires var id := batch[|batch| - 1];
             id in mid.records && id in next.records && next.records == mid.records[id := next.records[id]]
                 && next.records[id].status != Queued
    ensures SameRecords(s, next, batch) && Unqueued(next, batch)
  {
    assert batch == batch[..|batch| - 1] + [batch[|batch| - 1]];
  }

  function WithStatus(records: map<string, Record>, ids: seq<string>, status: Status): set<string> {
    set id | id in ids && id in records && records[id].status == status
  }

  lemma {:induction false} BatchSplits(records: map<string, Record>, batch: seq<string>)
    requires forall id :: id in batch ==> id in records && records[id].status != Queued
    requires forall i, j :: 0 <= i < j < |batch| ==> batch[i] != batch[j]
    ensures |batch| == |WithStatus(records, batch, Delivered)| + |WithStatus(records, batch, DeadLettered)|
  {
    var delivered, failed := WithStatus(records, batch, Delivered), WithStatus(records, batch, DeadLettered);
    DistinctIsAsMany(batch);
    assert (set id | id in batch) == delivered + failed;
    assert delivered !! failed;
  }

  lemma {:induction false} DeadLettersAfter(s: State, next: State, batch: seq<string>)
    requires SameRecords(s, next, batch) && Unqueued(next, batch)
    requires forall id :: id in batch ==> id in DeadLetterIds(s)
    ensures DeadLetterIds(next) == DeadLetterIds(s) - WithStatus(next.records, batch, Delivered)
  {
    forall id
      ensures id in DeadLetterIds(next) <==> id in DeadLetterIds(s) - WithStatus(next.records, batch, Delivered)
    {
      if id in batch {
        assert id in DeadLetterIds(s);
      } else if id in s.records {
        assert next.records[id] == s.records[id];
      }
    }
  }

  /**
   A retry pass turns part of its batch into deliveries and leaves the rest, and every other dead letter, as dead
   letters.
   */
  lemma {:induction false} RetryPassAccounts(cfg: Config, sinks: nat -> Reply, s: State, next: State, op: Op)
    requires op.RetryPass? && Performs(cfg, sinks, s, next, op)
    ensures var delivered, failed := WithStatus(next.records, op.batch, Delivered),
        WithStatus(next.records, op.batch, DeadLettered);
            |op.batch| == |delivered| + |failed| && DeadLetterIds(next) == DeadLetterIds(s) - delivered
  {
    RetriesTouchOnlyTheBatch(cfg, sinks, s, next, op.batch, op.at);
    BatchSplits(next.records, op.batch);
    DeadLettersAfter(s, next, op.batch);
  }

  lemma {:induction false} DistinctIsAsMany(ids: seq<string>)
    requires forall i, j :: 0 <= i < j < |ids| ==> ids[i] != ids[j]
    ensures |set id | id in ids| == |ids|
  {
    if ids != [] {
      var before, last := ids[..|ids| - 1], ids[|ids| - 1];
      DistinctIsAsMany(before);
      assert ids == before + [last];
      assert (set id | id in ids) == (set id | id in before) + {last};
    }
  }

  // ---------------------------------------------------------------- the program

  class Pipeline {
    var records: map<string, Record>
    var deadLetters: map<string, DeadLetter>
    var checkpoints: map<string, Checkpoint>
    var calls: nat
    ghost var history: seq<Happening>
    const cfg: Config
    const sinks: nat -> Reply

    ghost function View(): State
      reads this
    {
      State(records, deadLetters, checkpoints, calls, history)
    }

    constructor (cfg: Config, sinks: nat -> Reply)
      ensures View() == EMPTY && this.cfg == cfg && this.sinks == sinks
    {
      this.cfg, this.sinks := cfg, sinks;
      records, deadLetters, checkpoints, calls, history := map[], map[], map[], 0, [];
    }

    method RecordAndDeliver(id: string, stream: string, payload: string, now: Time)
      modifies this
      ensures Performs(cfg, sinks, old(View()), View(), Ingest(id, stream, payload, now))
    {
      if id in records {
        records := records[id := records[id].(payload := payload, updatedAt := now)];
      } else {
        records := records[id := Record(stream, payload, Queued, 0, now, now, None)];
      }
      var _ := DeliverEvent(id, now);
    }

    method DeliverEvent(id: string, now: Time) returns (delivered: bool)
      modifies this
      ensures DeliveredTo(cfg, sinks, old(View()), View(), id, now)
      ensures id in records ==> (delivered <==> records[id].status == Delivered)
    {
      if id !in records { return false; }
      var r := records[id];
      var attempts;
      delivered, attempts := Try(id, r.attempts);
      records := records[id := r.(status := if delivered then Delivered else DeadLettered, attempts := attempts,
                                  deliveredAt := if delivered then Some(now) else r.deliveredAt, updatedAt := now)];
      if !delivered {
        if id in deadLetters {
          deadLetters := deadLetters[id := deadLetters[id].(attempts := attempts)];
        } else {
          deadLetters := deadLetters[id := DeadLetter(r.stream, r.payload, attempts, now)];
        }
      }
      assert View() == Settle(cfg, sinks, old(View()), id, now);
      RefreshCheckpoint(r.stream, now);
    }

    /** The delivery loop: attempts from the persisted count up to the maximum, stopping at the first success. */
    method Try(id: string, start: int) returns (delivered: bool, attempts: int)
      modifies this`calls, this`history
      ensures delivered == Succeeds(cfg, sinks, start, old(calls))
      ensures attempts == start + Tries(cfg, sinks, start, old(calls))
          && calls == old(calls) + Tries(cfg, sinks, start, old(calls))
      ensures history == old(history) + Attempts(sinks, id, old(calls), Tries(cfg, sinks, start, old(calls)))
    {
      attempts, delivered := start, false;
      ghost var tried: nat := 0;
      while !delivered && attempts < cfg.maxAttempts
        invariant attempts == start + tried && calls == old(calls) + tried
        invariant history == old(history) + Attempts(sinks, id, old(calls), tried)
        invariant Tries(cfg, sinks, start, old(calls))
            == tried + (if delivered then 0 else Tries(cfg, sinks, attempts, calls))
        invariant Succeeds(cfg, sinks, start, old(calls)) == (delivered || Succeeds(cfg, sinks, attempts, calls))
        decreases cfg.maxAttempts - attempts, !delivered
      {
        var reply := sinks(calls);
        history := history + [Attempted(id, reply)];
        assert Attempts(sinks, id, old(calls), tried + 1)
            == Attempts(sinks, id, old(calls), tried) + [Attempted(id, reply)];
        calls := calls + 1;
        attempts := attempts + 1;
        tried := tried + 1;
        if (cfg.kafka ==> reply.kafka) && (cfg.clickhouse ==> reply.clickhouse) {
          delivered := true;
        }
      }
    }

    /** One aggregate query over the stream's rows, one upsert. */
    method RefreshCheckpoint(stream: string, now: Time)
      modifies this`checkpoints
      ensures Refreshed(old(View()), View(), stream, now)
    {
      var latest := LatestDelivery(stream);
      var lag := Lag(stream, now);
      checkpoints := checkpoints[stream :=
        Checkpoint(|PendingIds(records, stream)|, |DeadIds(records, stream)|, lag, latest, now)];
    }

    method Lag(stream: string, now: Time) returns (lag: int)
      ensures IsLag(records, stream, now, lag)
    {
      var todo := PendingIds(records, stream);
      if todo == {} { return 0; }
      var oldest :| oldest in todo;
      lag := now - records[oldest].createdAt;
      while todo != {}
        invariant todo <= PendingIds(records, stream)
        invariant exists id :: id in PendingIds(records, stream) && lag == now - records[id].createdAt
        invariant forall id :: id in PendingIds(records, stream) && id !in todo ==> now - records[id].createdAt <= lag
        decreases |todo|
      {
        var id :| id in todo;
        if lag < now - records[id].createdAt { lag := now - records[id].createdAt; }
        todo := todo - {id};
      }
    }

    method LatestDelivery(stream: string) returns (latest: Option<Time>)
      ensures IsLatestDelivery(records, stream, latest)
    {
      var todo := records.Keys;
      latest := None;
      while todo != {}
        invariant todo <= records.Keys
        invariant forall id | id in records && id !in todo ::
          records[id].stream == stream && records[id].deliveredAt.Some? ==>
            latest.Some? && records[id].deliveredAt.value <= latest.value
        invariant latest.Some? ==>
          exists id :: id in records && records[id].stream == stream && records[id].deliveredAt == latest
        decreases |todo|
      {
        var id :| id in todo;
        var r := records[id];
        if r.stream == stream && r.deliveredAt.Some? && (latest.None? || latest.value < r.deliveredAt.value) {
          latest := r.deliveredAt;
        }
        todo := todo - {id};
      }
    }

    /** The rows of the retry query: repeatedly the oldest dead letter not yet taken. */
    method OldestDeadLetters(limit: nat) returns (ids: seq<string>)
      ensures IsRetryBatch(View(), ids, limit)
    {
      var left := set id | id in records && records[id].status == DeadLettered;
      ids := [];
      assert left == DeadLetterIds(View());
      while |ids| < limit && left != {}
        invariant |ids| <= limit && |ids| + |left| == |DeadLetterIds(View())|
        invariant forall id :: id in DeadLetterIds(View()) <==> id in left || id in ids
        invariant forall i :: 0 <= i < |ids| ==> ids[i] !in left
        invariant forall i, j :: 0 <= i < j < |ids| ==>
            ids[i] != ids[j] && records[ids[i]].updatedAt <= records[ids[j]].updatedAt
        invariant forall i, id :: 0 <= i < |ids| && id in left ==> records[ids[i]].updatedAt <= records[id].updatedAt
        decreases |left|
      {
        var oldest := Oldest(left);
        ids := ids + [oldest];
        left := left - {oldest};
      }
    }

    method Oldest(left: set<string>) returns (oldest: string)
      requires left != {} && left <= records.Keys
      ensures oldest in left && forall id :: id in left ==> records[oldest].updatedAt <= records[id].updatedAt
    {
      oldest :| oldest in left;
      var todo := left - {oldest};
      while todo != {}
        invariant todo <= left && oldest in left
        invariant forall id :: id in left - todo ==> records[oldest].updatedAt <= records[id].updatedAt
        decreases |todo|
      {
        var id :| id in todo;
        if records[id].updatedAt < records[oldest].updatedAt { oldest := id; }
        todo := todo - {id};
      }
    }

    method RetryOne(id: string, now: Time) returns (delivered: bool)
      requires id in records
      modifies this
      ensures DeliveredTo(cfg, sinks, Reset(old(View()), id), View(), id, now)
      ensures delivered <==> id in records && records[id].status == Delivered
    {
      records := records[id := records[id].(status := Queued, attempts := 0)];
      history := history + [WasReset(id)];
      delivered := DeliverEvent(id, now);
    }

    method RetryDeadLetters(
      limit: nat, now: Time) returns (retried: nat, delivered: nat, failed: nat, ghost batch: seq<string>)
      modifies this
      ensures Performs(cfg, sinks, old(View()), View(), RetryPass(limit, batch, now))
      ensures retried == |batch| == delivered + failed
      ensures delivered == |WithStatus(records, batch, Delivered)|
    {
      var ids := OldestDeadLetters(limit);
      ghost var start := View();
      batch := ids;
      delivered, failed := 0, 0;
      assert ids[..0] == [] && WithStatus(records, [], Delivered) == {};
      for n := 0 to |ids|
        invariant RetriesTo(cfg, sinks, start, View(), ids[..n], now)
        invariant delivered + failed == n && delivered == |WithStatus(records, ids[..n], Delivered)|
      {
        ghost var mid := View();
        var id := ids[n];
        RetriesTouchOnlyTheBatch(cfg, sinks, start, mid, ids[..n], now);
        assert id in mid.records && id !in ids[..n];
        var ok := RetryOne(id, now);
        OneDelivery(cfg, sinks, mid, View(), id, now);
        RetriesOneMore(cfg, sinks, start, mid, View(), ids, n, now);
        OneMoreDelivered(mid.records, records, ids, n);
        if ok { delivered := delivered + 1; } else { failed := failed + 1; }
      }
      assert ids[..|ids|] == ids;
      retried := |ids|;
    }
  }

  lemma {:induction false} OneMoreDelivered(
    before: map<string, Record>, after: map<string, Record>, ids: seq<string>, n: nat)
    requires n < |ids| && ids[n] in after && after == before[ids[n] := after[ids[n]]] && ids[n] !in ids[..n]
    ensures |WithStatus(after, ids[..n + 1], Delivered)|
         == |WithStatus(before, ids[..n], Delivered)| + if after[ids[n]].status == Delivered then 1 else 0
  {
    assert ids[..n + 1] == ids[..n] + [ids[n]];
    DeliveredWithOneMore(before, after, ids[..n], ids[n]);
  }

  lemma {:induction false} DeliveredWithOneMore(
    before: map<string, Record>, after: map<string, Record>, ids: seq<string>, id: string)
    requires id in after && after == before[id := after[id]] && id !in ids
    ensures WithStatus(after, ids + [id], Delivered)
         == WithStatus(before, ids, Delivered) + if after[id].status == Delivered then {id} else {}
    ensures id !in WithStatus(before, ids, Delivered)
  {
  }

  lemma {:induction false} RetriesOneMore(
    cfg: Config, sinks: nat -> Reply, s: State, mid: State, next: State, ids: seq<string>, n: nat, now: Time)
    requires n < |ids| && RetriesTo(cfg, sinks, s, mid, ids[..n], now)
    requires ids[n] in mid.records && DeliveredTo(cfg, sinks, Reset(mid, ids[n]), next, ids[n], now)
    ensures RetriesTo(cfg, sinks, s, next, ids[..n + 1], now)
  {
    assert ids[..n + 1][..n] == ids[..n];
  }
}
