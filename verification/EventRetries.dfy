/**
 What deliveries and retry passes of the event pipeline (services/event_pipeline.py) leave behind, stated by the
 replies that the sinks give.
 */
module EventRetries {
  import opened Options
  import opened EventPipeline

  /** Every enabled sink takes the n-th attempt. */
  predicate TakesIt(cfg: Config, sinks: nat -> Reply, n: nat) {
    (cfg.kafka ==> sinks(n).kafka) && (cfg.clickhouse ==> sinks(n).clickhouse)
  }

  function Max(a: int, b: int): int { if a > b then a else b }

  /** With so many attempts left, those from call `from` up to `to` end with the first that is taken, if any is. */
  ghost predicate Delivers(cfg: Config, sinks: nat -> Reply, left: int, from: nat, to: nat, taken: bool) {
    && from <= to <= from + Max(left, 0)
    && (if taken then from < to && TakesIt(cfg, sinks, to - 1) else to == from + Max(left, 0))
    && forall n: nat :: from <= n < (if taken then to - 1 else to) ==> !TakesIt(cfg, sinks, n)
  }

  lemma {:induction false} TriesOutcome(cfg: Config, sinks: nat -> Reply, attempts: int, calls: nat)
    ensures Delivers(cfg, sinks, cfg.maxAttempts - attempts, calls,
                     calls + Tries(cfg, sinks, attempts, calls), Succeeds(cfg, sinks, attempts, calls))
    decreases cfg.maxAttempts - attempts
  {
    if attempts < cfg.maxAttempts && !Accepted(cfg, sinks(calls)) {
      TriesOutcome(cfg, sinks, attempts + 1, calls + 1);
      assert !TakesIt(cfg, sinks, calls);
    } else if attempts < cfg.maxAttempts {
      assert TakesIt(cfg, sinks, calls);
    }
  }

  /** An event is taken exactly if one of the replies to its attempts is that of sinks that all take it. */
  lemma {:induction false} TakenIff(cfg: Config, sinks: nat -> Reply, left: int, from: nat, to: nat, taken: bool)
    requires Delivers(cfg, sinks, left, from, to, taken)
    ensures taken <==> exists n: nat :: from <= n < from + left && TakesIt(cfg, sinks, n)
    ensures left > 0 ==> 1 <= to - from <= left
  {
    if taken { assert from <= to - 1 < from + left && TakesIt(cfg, sinks, to - 1); }
  }

  // ---------------------------------------------------------------- one delivery

  /** The record after its delivery at some time, by the attempts made and their end. */
  function DeliveredRecord(r: Record, made: nat, taken: bool, now: Time): Record {
    r.(status := if taken then Delivered else DeadLettered, attempts := r.attempts + made,
       deliveredAt := if taken then Some(now) else r.deliveredAt, updatedAt := now)
  }

  /** The dead letter of an event that was not taken; a known one only counts on. */
  ghost predicate IsDeadLetterOf(before: map<string, DeadLetter>, d: DeadLetter, id: string, r: Record, now: Time) {
    if id in before then d == before[id].(attempts := r.attempts)
    else d == DeadLetter(r.stream, r.payload, r.attempts, now)
  }

  lemma {:induction false} DeliveryOutcome(
    cfg: Config, sinks: nat -> Reply, s: State, next: State, id: string, now: Time)
    requires id in s.records && DeliveredTo(cfg, sinks, s, next, id, now)
    ensures id in next.records && next.calls >= s.calls
    ensures var r, q, made := s.records[id], next.records[id], next.calls - s.calls;
            var taken := q.status == Delivered;
            && Delivers(cfg, sinks, cfg.maxAttempts - r.attempts, s.calls, next.calls, taken)
            && q == DeliveredRecord(r, made, taken, now) && next.records == s.records[id := q]
            && r.stream in next.checkpoints && next.checkpoints[r.stream].updatedAt == now
            && next.checkpoints == s.checkpoints[r.stream := next.checkpoints[r.stream]]
            && (taken ==> next.deadLetters == s.deadLetters)
            && (!taken ==> id in next.deadLetters && IsDeadLetterOf(s.deadLetters, next.deadLetters[id], id, q, now)
                           && next.deadLetters == s.deadLetters[id := next.deadLetters[id]])
  {
    TriesOutcome(cfg, sinks, s.records[id].attempts, s.calls);
  }

  /** A new event is stored with its stream and payload, a known one gets the new payload; then it is delivered. */
  lemma {:induction false} IngestOutcome(cfg: Config, sinks: nat -> Reply, s: State, next: State, op: Op)
    requires op.Ingest? && Performs(cfg, sinks, s, next, op)
    ensures op.id in next.records && next.calls >= s.calls
    ensures var known, q, made := op.id in s.records, next.records[op.id], next.calls - s.calls;
            var old_ := if known then s.records[op.id].attempts else 0;
            && (q.status == Delivered
                <==> exists n: nat :: s.calls <= n < s.calls + (cfg.maxAttempts - old_) && TakesIt(cfg, sinks, n))
            && q.payload == op.payload && q.attempts == old_ + made && q.updatedAt == op.at
            && (known ==> q.stream == s.records[op.id].stream && q.createdAt == s.records[op.id].createdAt)
            && (!known ==> q.stream == op.stream && q.createdAt == op.at)
            && q.deliveredAt == (if q.status == Delivered then Some(op.at)
                                 else if known then s.records[op.id].deliveredAt else None)
            && (q.status == Delivered || q.status == DeadLettered) && next.records == s.records[op.id := q]
  {
    var u := Upsert(s, op.id, op.stream, op.payload, op.at);
    DeliveryOutcome(cfg, sinks, u, next, op.id, op.at);
    TakenIff(cfg, sinks, cfg.maxAttempts - u.records[op.id].attempts, s.calls, next.calls,
             next.records[op.id].status == Delivered);
  }

  // ---------------------------------------------------------------- one retry pass

  /** The event's turn in a pass: all attempts anew, whatever was counted before. */
  ghost predicate Turn(cfg: Config, sinks: nat -> Reply, r: Record, from: nat, to: nat) {
    && Delivers(cfg, sinks, cfg.maxAttempts, from, to, r.status == Delivered)
    && r.attempts == to - from && (r.status == Delivered || r.status == DeadLettered)
  }

  lemma {:induction false} RetryOutcome(cfg: Config, sinks: nat -> Reply, s: State, next: State, id: string, now: Time)
    requires id in s.records && DeliveredTo(cfg, sinks, Reset(s, id), next, id, now)
    ensures id in next.records && Turn(cfg, sinks, next.records[id], s.calls, next.calls)
    ensures next.records == s.records[id := next.records[id]]
    ensures next.records[id].stream == s.records[id].stream && next.records[id].payload == s.records[id].payload
  {
    DeliveryOutcome(cfg, sinks, Reset(s, id), next, id, now);
  }

  predicate Distinct(ids: seq<string>) { forall i, j :: 0 <= i < j < |ids| ==> ids[i] != ids[j] }

  lemma {:induction false} DistinctPrefix(ids: seq<string>, n: nat)
    requires Distinct(ids) && n <= |ids|
    ensures Distinct(ids[..n])
  {
  }

  ghost predicate AreTurns(
    cfg: Config, sinks: nat -> Reply, records: map<string, Record>, batch: seq<string>, turns: seq<nat>)
  {
    && |turns| == |batch| + 1
    && forall k :: 0 <= k < |batch| ==>
         batch[k] in records && Turn(cfg, sinks, records[batch[k]], turns[k], turns[k + 1])
  }

  lemma {:induction false} OneMoreTurn(
    cfg: Config, sinks: nat -> Reply, mid: State, next: State, batch: seq<string>, n: nat, turns: seq<nat>)
    requires |batch| == n + 1 && Distinct(batch)
    requires AreTurns(cfg, sinks, mid.records, batch[..n], turns) && turns[n] == mid.calls
    requires batch[n] in next.records && next.records == mid.records[batch[n] := next.records[batch[n]]]
    requires Turn(cfg, sinks, next.records[batch[n]], mid.calls, next.calls)
    ensures AreTurns(cfg, sinks, next.records, batch, turns + [next.calls])
  {
    var more := turns + [next.calls];
    forall k | 0 <= k < |batch|
      ensures batch[k] in next.records && Turn(cfg, sinks, next.records[batch[k]], more[k], more[k + 1])
    {
      if k < n { assert batch[..n][k] == batch[k] && batch[k] != batch[n]; }
    }
  }

  lemma {:induction false} LastTurn(
    cfg: Config, sinks: nat -> Reply, s: State, next: State, batch: seq<string>, n: nat, now: Time) returns (mid: State)
    requires |batch| == n + 1 && RetriesTo(cfg, sinks, s, next, batch, now)
    ensures RetriesTo(cfg, sinks, s, mid, batch[..n], now) && batch[n] in next.records
    ensures next.records == mid.records[batch[n] := next.records[batch[n]]]
    ensures Turn(cfg, sinks, next.records[batch[n]], mid.calls, next.calls)
  {
    mid :| RetriesTo(cfg, sinks, s, mid, batch[..n], now)
           && batch[n] in mid.records && DeliveredTo(cfg, sinks, Reset(mid, batch[n]), next, batch[n], now);
    RetryOutcome(cfg, sinks, mid, next, batch[n], now);
  }

  /** The calls at which the turns of a batch begin and end, one behind the other. */
  lemma {:induction false} TurnsOf(
    cfg: Config, sinks: nat -> Reply, s: State, next: State, batch: seq<string>, now: Time) returns (turns: seq<nat>)
    requires RetriesTo(cfg, sinks, s, next, batch, now)
    requires Distinct(batch)
    ensures AreTurns(cfg, sinks, next.records, batch, turns)
    ensures turns[0] == s.calls && turns[|batch|] == next.calls
    decreases |batch|
  {
    turns := [s.calls];
    if batch != [] {
      var n := |batch| - 1;
      DistinctPrefix(batch, n);
      var mid := LastTurn(cfg, sinks, s, next, batch, n, now);
      var before := TurnsOf(cfg, sinks, s, mid, batch[..n], now);
      OneMoreTurn(cfg, sinks, mid, next, batch, n, before);
      turns := before + [next.calls];
    }
  }

  /**
   In a retry pass every event of the batch gets its turn, with all attempts anew: it ends up delivered if and only if
   one of the first maxAttempts replies from its turn on takes it, and it is attempted at least once.
   */
  lemma {:induction false} RetryPassOutcome(cfg: Config, sinks: nat -> Reply, s: State, next: State, op: Op, k: nat)
    returns (turn: nat, end: nat)
    requires op.RetryPass? && Performs(cfg, sinks, s, next, op) && k < |op.batch|
    ensures op.batch[k] in next.records
    ensures next.records[op.batch[k]].status == Delivered
       <==> exists n: nat :: turn <= n < turn + cfg.maxAttempts && TakesIt(cfg, sinks, n)
    ensures next.records[op.batch[k]].status != Delivered ==> next.records[op.batch[k]].status == DeadLettered
    ensures next.records[op.batch[k]].attempts == end - turn
    ensures cfg.maxAttempts > 0 ==> 1 <= end - turn <= cfg.maxAttempts
    ensures k == 0 ==> turn == s.calls
    ensures s.calls <= turn <= end <= next.calls
  {
    var turns := TurnsOf(cfg, sinks, s, next, op.batch, op.at);
    turn, end := turns[k], turns[k + 1];
    TakenIff(cfg, sinks, cfg.maxAttempts, turn, end, next.records[op.batch[k]].status == Delivered);
    TurnsAscend(cfg, sinks, next.records, op.batch, turns, 0, k);
    TurnsAscend(cfg, sinks, next.records, op.batch, turns, k + 1, |op.batch|);
  }

  lemma {:induction false} TurnsAscend(
    cfg: Config, sinks: nat -> Reply, records: map<string, Record>, batch: seq<string>, turns: seq<nat>, i: nat, j: nat)
    requires AreTurns(cfg, sinks, records, batch, turns) && i <= j < |turns|
    ensures turns[i] <= turns[j]
  {
    if i < j {
      TurnsAscend(cfg, sinks, records, batch, turns, i, j - 1);
      assert Turn(cfg, sinks, records[batch[j - 1]], turns[j - 1], turns[j]);
    }
  }

  /** If the sinks take every attempt of a pass, the whole batch is delivered and none of it stays a dead letter. */
  lemma {:induction false} WholeBatchIsDelivered(
    cfg: Config, sinks: nat -> Reply, s: State, next: State, op: Op, id: string)
    requires op.RetryPass? && Performs(cfg, sinks, s, next, op) && cfg.maxAttempts > 0 && id in op.batch
    requires forall n: nat :: s.calls <= n < next.calls ==> TakesIt(cfg, sinks, n)
    ensures id in next.records && next.records[id].status == Delivered && id !in DeadLetterIds(next)
  {
    var k :| 0 <= k < |op.batch| && op.batch[k] == id;
    var turn, end := RetryPassOutcome(cfg, sinks, s, next, op, k);
    assert TakesIt(cfg, sinks, turn);
  }
}
