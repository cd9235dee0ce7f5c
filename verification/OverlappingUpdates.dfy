/**
 Changes of one policy that overlap (main.py): each reads the current version and rules, and later writes its row
 of policy_versions in one transaction, in any interleaving with the others; no lock is held in between.
 */
module OverlappingUpdates {
  import opened Options
  import opened PolicyHistory

  /** An update or a rollback writes new rules under the next number; publication and approval write what they read. */
  datatype Change = NewRules(rules: Rules) | SameRules

  datatype Event = Read(job: nat) | Write(job: nat, change: Change)

  datatype Seen = Seen(version: int, rules: Rules)

  /** The policy's row, its stored versions, and what the changes under way have read. */
  datatype Table = Table(version: int, rules: Rules, stored: map<int, Rules>, read: map<nat, Seen>)

  /** Only a change that has read writes, and once. */
  function Next(t: Table, event: Event): Table {
    match event
    case Read(job) => t.(read := t.read[job := Seen(t.version, t.rules)])
    case Write(job, change) =>
      if job !in t.read then t
      else
        var seen, others := t.read[job], t.read - {job};
        match change
        case NewRules(rules) => Table(seen.version + 1, rules, t.stored[seen.version + 1 := rules], others)
        case SameRules => t.(stored := t.stored[seen.version := seen.rules], read := others)
  }

  function After(t: Table, run: seq<Event>): Table {
    if run == [] then t else Next(After(t, run[..|run| - 1]), run[|run| - 1])
  }

  /** No change is under way, and the current version, if stored, has the current rules. */
  predicate IsStart(t: Table) {
    && t.read == map[] && (forall k :: k in t.stored ==> k <= t.version)
    && (t.version in t.stored ==> t.stored[t.version] == t.rules)
  }

  /** The event writes new rules, under the number after the one that its change read. */
  predicate Advances(t: Table, event: Event) { event.Write? && event.change.NewRules? && event.job in t.read }

  function NumberOf(t: Table, event: Event): int
    requires Advances(t, event)
  {
    t.read[event.job].version + 1
  }

  /** Some event of the run wrote these new rules under this number. */
  predicate Wrote(t: Table, run: seq<Event>, k: int, rules: Rules) {
    run != []
    && (var before, last := run[..|run| - 1], run[|run| - 1];
        || Wrote(t, before, k, rules)
        || (Advances(After(t, before), last) && NumberOf(After(t, before), last) == k && last.change.rules == rules))
  }

  // ---------------------------------------------------------------- stored rules

  /** No event replaces the rules of a stored version by others. */
  ghost predicate StoredRulesStay(t: Table, run: seq<Event>) {
    run == []
    || (var older, newer := After(t, run[..|run| - 1]).stored, After(t, run).stored;
        StoredRulesStay(t, run[..|run| - 1])
        && forall k :: k in older ==> k in newer && newer[k] == older[k])
  }

  /** Changes that read the same version write the same new rules. */
  ghost predicate RivalsAgree(t: Table, run: seq<Event>) {
    run == []
    || (var before, last := run[..|run| - 1], run[|run| - 1];
        RivalsAgree(t, before)
        && (Advances(After(t, before), last) ==>
              forall rules :: Wrote(t, before, NumberOf(After(t, before), last), rules) ==> rules == last.change.rules))
  }

  /** The rules belong to the number: those the start had, or new rules written under it. */
  predicate IsFrom(t: Table, run: seq<Event>, k: int, rules: Rules) {
    k >= t.version && if k == t.version then rules == t.rules else Wrote(t, run, k, rules)
  }

  lemma {:induction false} ReadsAreFrom(t: Table, run: seq<Event>, job: nat)
    requires IsStart(t)
    ensures IsFrom(t, run, After(t, run).version, After(t, run).rules)
    ensures job in After(t, run).read ==> IsFrom(t, run, After(t, run).read[job].version, After(t, run).read[job].rules)
  {
    if run != [] {
      var before, last := run[..|run| - 1], run[|run| - 1];
      ReadsAreFrom(t, before, job);
      ReadsAreFrom(t, before, last.job);
    }
  }

  lemma {:induction false} StoredAreFrom(t: Table, run: seq<Event>, k: int)
    requires IsStart(t) && k in After(t, run).stored
    ensures k < t.version ==> k in t.stored && After(t, run).stored[k] == t.stored[k]
    ensures k >= t.version ==> IsFrom(t, run, k, After(t, run).stored[k])
  {
    if run != [] {
      var before, last := run[..|run| - 1], run[|run| - 1];
      ReadsAreFrom(t, before, last.job);
      if k in After(t, before).stored { StoredAreFrom(t, before, k); }
    }
  }

  lemma {:induction false} RivalsWroteTheSame(t: Table, run: seq<Event>, k: int, rules: Rules, others: Rules)
    requires RivalsAgree(t, run) && Wrote(t, run, k, rules) && Wrote(t, run, k, others)
    ensures rules == others
  {
    var before := run[..|run| - 1];
    if Wrote(t, before, k, rules) && Wrote(t, before, k, others) { RivalsWroteTheSame(t, before, k, rules, others); }
  }

  lemma {:induction false} AgreeingAdvanceKeeps(t: Table, run: seq<Event>, event: Event)
    requires IsStart(t) && Advances(After(t, run), event)
    requires forall rules :: Wrote(t, run, NumberOf(After(t, run), event), rules) ==> rules == event.change.rules
    requires NumberOf(After(t, run), event) in After(t, run).stored
    ensures After(t, run).stored[NumberOf(After(t, run), event)] == event.change.rules
  {
    var k := NumberOf(After(t, run), event);
    ReadsAreFrom(t, run, event.job);
    StoredAreFrom(t, run, k);
    assert Wrote(t, run, k, After(t, run).stored[k]);
  }

  lemma {:induction false} RestatedIsStored(t: Table, run: seq<Event>, job: nat)
    requires IsStart(t) && RivalsAgree(t, run) && job in After(t, run).read
    requires After(t, run).read[job].version in After(t, run).stored
    ensures After(t, run).stored[After(t, run).read[job].version] == After(t, run).read[job].rules
  {
    var seen := After(t, run).read[job];
    ReadsAreFrom(t, run, job);
    StoredAreFrom(t, run, seen.version);
    if seen.version > t.version {
      RivalsWroteTheSame(t, run, seen.version, After(t, run).stored[seen.version], seen.rules);
    }
  }

  lemma {:induction false} AgreeingWriteKeeps(t: Table, run: seq<Event>, k: int)
    requires IsStart(t) && run != [] && RivalsAgree(t, run) && k in After(t, run[..|run| - 1]).stored
    ensures k in After(t, run).stored && After(t, run).stored[k] == After(t, run[..|run| - 1]).stored[k]
  {
    var before, last := run[..|run| - 1], run[|run| - 1];
    var older := After(t, before);
    if Advances(older, last) {
      if k == NumberOf(older, last) { AgreeingAdvanceKeeps(t, before, last); }
    } else if last.Write? && last.job in older.read && k == older.read[last.job].version {
      RestatedIsStored(t, before, last.job);
    }
  }

  lemma {:induction false} KeptAsWritten(t: Table, run: seq<Event>, k: int, rules: Rules)
    requires StoredRulesStay(t, run) && Wrote(t, run, k, rules)
    ensures k in After(t, run).stored && After(t, run).stored[k] == rules
  {
    var before := run[..|run| - 1];
    if Wrote(t, before, k, rules) { KeptAsWritten(t, before, k, rules); }
  }

  /**
   However the changes of a policy overlap, the rules of stored versions never change if and only if all updates
   and rollbacks that read the same version write the same rules.
   */
  lemma {:induction false} StoredRulesStayIff(t: Table, run: seq<Event>)
    requires IsStart(t)
    ensures StoredRulesStay(t, run) <==> RivalsAgree(t, run)
  {
    if run != [] {
      var before, last := run[..|run| - 1], run[|run| - 1];
      StoredRulesStayIff(t, before);
      if RivalsAgree(t, run) {
        forall k | k in After(t, before).stored
          ensures k in After(t, run).stored && After(t, run).stored[k] == After(t, before).stored[k]
        {
          AgreeingWriteKeeps(t, run, k);
        }
      }
      if StoredRulesStay(t, run) && Advances(After(t, before), last) {
        var k := NumberOf(After(t, before), last);
        forall rules | Wrote(t, before, k, rules) ensures rules == last.change.rules {
          KeptAsWritten(t, before, k, rules);
        }
      }
    }
  }

  // ---------------------------------------------------------------- version numbers

  /** Every update and rollback takes a number that no stored version has. */
  predicate NumbersAreUnused(t: Table, run: seq<Event>) {
    run == []
    || (var before, last := run[..|run| - 1], run[|run| - 1];
        NumbersAreUnused(t, before)
        && (Advances(After(t, before), last) ==> NumberOf(After(t, before), last) !in After(t, before).stored))
  }

  /** New rules were written since the change last read. */
  predicate IsOvertaken(t: Table, run: seq<Event>, job: nat) {
    run != []
    && (var before, last := run[..|run| - 1], run[|run| - 1];
        last != Read(job) && (IsOvertaken(t, before, job) || Advances(After(t, before), last)))
  }

  /** No update or rollback writes after another has written since it read. */
  predicate NoneOvertaken(t: Table, run: seq<Event>) {
    run == []
    || (var before, last := run[..|run| - 1], run[|run| - 1];
        NoneOvertaken(t, before) && (Advances(After(t, before), last) ==> !IsOvertaken(t, before, last.job)))
  }

  /**
   The numbers since the start are stored up to the current one, and a change is overtaken if it read a smaller
   one.
   */
  lemma {:induction false} NumbersGrow(t: Table, run: seq<Event>, job: nat, k: int)
    requires IsStart(t) && NoneOvertaken(t, run)
    ensures k in After(t, run).stored ==> k <= After(t, run).version
    ensures t.version < k <= After(t, run).version ==> k in After(t, run).stored
    ensures job in After(t, run).read ==>
              t.version <= After(t, run).read[job].version <= After(t, run).version
              && (IsOvertaken(t, run, job) <==> After(t, run).read[job].version < After(t, run).version)
    ensures t.version <= After(t, run).version
  {
    if run != [] {
      var before, last := run[..|run| - 1], run[|run| - 1];
      NumbersGrow(t, before, job, k);
      NumbersGrow(t, before, last.job, k);
    }
  }

  /** Numbers are unused if and only if no change is overtaken between its read and its write. */
  lemma {:induction false} NumbersAreUnusedIff(t: Table, run: seq<Event>)
    requires IsStart(t)
    ensures NumbersAreUnused(t, run) <==> NoneOvertaken(t, run)
  {
    if run != [] {
      var before, last := run[..|run| - 1], run[|run| - 1];
      NumbersAreUnusedIff(t, before);
      if NoneOvertaken(t, before) && Advances(After(t, before), last) {
        NumbersGrow(t, before, last.job, NumberOf(After(t, before), last));
      }
    }
  }

  lemma {:induction false} WrittenIsStored(t: Table, run: seq<Event>, k: int, rules: Rules)
    requires Wrote(t, run, k, rules)
    ensures k in After(t, run).stored
  {
    if Wrote(t, run[..|run| - 1], k, rules) { WrittenIsStored(t, run[..|run| - 1], k, rules); }
  }

  /** Without overtaking, stored rules stay, whatever they are, and the version never falls. */
  lemma {:induction false} NoneOvertakenIsSafe(t: Table, run: seq<Event>)
    requires IsStart(t) && NoneOvertaken(t, run)
    ensures StoredRulesStay(t, run)
    ensures run != [] ==> After(t, run[..|run| - 1]).version <= After(t, run).version
  {
    StoredRulesStayIff(t, run);
    NoneOvertakenAgree(t, run);
    if run != [] { NumbersGrow(t, run[..|run| - 1], run[|run| - 1].job, t.version); }
  }

  lemma {:induction false} NoneOvertakenAgree(t: Table, run: seq<Event>)
    requires IsStart(t) && NoneOvertaken(t, run)
    ensures RivalsAgree(t, run)
  {
    if run != [] {
      var before, last := run[..|run| - 1], run[|run| - 1];
      NoneOvertakenAgree(t, before);
      NumbersAreUnusedIff(t, run);
      if Advances(After(t, before), last) {
        var k := NumberOf(After(t, before), last);
        forall rules ensures !Wrote(t, before, k, rules) {
          if Wrote(t, before, k, rules) { WrittenIsStored(t, before, k, rules); assert false; }
        }
      }
    }
  }

  // ---------------------------------------------------------------- runs that overlap

  function Created(rules: Rules): Table { Table(1, rules, map[1 := rules], map[]) }

  lemma {:induction false} OneMore(t: Table, run: seq<Event>, event: Event, u: Table)
    requires After(t, run) == u
    ensures After(t, run + [event]) == Next(u, event)
  {
    assert (run + [event])[..|run|] == run;
  }

  /** Two updates have read version 1. */
  function BothRead(start: Rules): Table {
    Created(start).(read := map[0 := Seen(1, start), 1 := Seen(1, start)])
  }

  lemma {:induction false} AfterBothRead(start: Rules)
    ensures After(Created(start), [Read(0)] + [Read(1)]) == BothRead(start)
  {
    var t := Created(start);
    assert After(t, []) == t && [] + [Read(0)] == [Read(0)];
    OneMore(t, [], Read(0), t);
    OneMore(t, [Read(0)], Read(1), t.(read := map[0 := Seen(1, start)]));
  }

  /** Two updates that read the same version: the one that writes first is lost, in the row and in the history. */
  lemma {:induction false} FirstOfTwoUpdatesIsLost(start: Rules, first: Rules, second: Rules)
    ensures var run := [Read(0)] + [Read(1)] + [Write(0, NewRules(first))] + [Write(1, NewRules(second))];
            After(Created(start), run) == Table(2, second, map[1 := start, 2 := second], map[])
  {
    var t, run := BothRead(start), [Read(0)] + [Read(1)];
    AfterBothRead(start);
    OneMore(Created(start), run, Write(0, NewRules(first)), t);
    var u := Next(t, Write(0, NewRules(first)));
    assert u.read == map[1 := Seen(1, start)];
    OneMore(Created(start), run + [Write(0, NewRules(first))], Write(1, NewRules(second)), u);
    assert Next(u, Write(1, NewRules(second))).read == map[];
  }

  /** A late writer takes the version back: from 3 to 2. */
  lemma {:induction false} VersionCanFall(start: Rules, late: Rules, second: Rules, third: Rules)
    ensures var run := [Read(0)] + [Read(1)] + [Write(1, NewRules(second))] + [Read(2)] + [Write(2, NewRules(third))];
            After(Created(start), run).version == 3
            && After(Created(start), run + [Write(0, NewRules(late))]).version == 2
  {
    var t, run := BothRead(start), [Read(0)] + [Read(1)];
    AfterBothRead(start);
    OneMore(Created(start), run, Write(1, NewRules(second)), t);
    t, run := Next(t, Write(1, NewRules(second))), run + [Write(1, NewRules(second))];
    OneMore(Created(start), run, Read(2), t);
    t, run := Next(t, Read(2)), run + [Read(2)];
    OneMore(Created(start), run, Write(2, NewRules(third)), t);
    t, run := Next(t, Write(2, NewRules(third))), run + [Write(2, NewRules(third))];
    OneMore(Created(start), run, Write(0, NewRules(late)), t);
  }

  // ---------------------------------------------------------------- without overlap

  function StoredOf(versions: map<(int, int), Version>, id: int): map<int, Rules> {
    map key | key in versions && key.0 == id :: key.1 := Parse(versions[key].rules)
  }

  /** What the overlapping runs see of a policy. */
  function ViewOf(s: State, id: int): Table
    requires id in s.policies
  {
    Table(s.policies[id].version, Parse(s.policies[id].rules), StoredOf(s.versions, id), map[])
  }

  /** Every state the policy history reaches is one from which changes can start to overlap. */
  lemma {:induction false} ViewIsStart(s: State, id: int)
    requires Inv(s) && id in s.policies
    ensures IsStart(ViewOf(s, id))
  {
    assert PolicyInv(s, id);
    forall k | k in ViewOf(s, id).stored ensures k <= s.policies[id].version { assert VersionInv(s, (id, k)); }
  }

  lemma {:induction false} StoredAfterWrite(versions: map<(int, int), Version>, id: int, k: int, v: Version)
    ensures StoredOf(versions[(id, k) := v], id) == StoredOf(versions, id)[k := Parse(v.rules)]
  {
  }

  /** The operation writes this version row and these current rules. */
  predicate WritesVersion(s: State, t: State, id: int, k: int, rules: Rules) {
    && (id, k) in t.versions && t.versions == s.versions[(id, k) := t.versions[(id, k)]]
    && t.versions[(id, k)].rules == Serialized(rules)
  }

  function Advanced(t: Table, rules: Rules): Table {
    Table(t.version + 1, rules, t.stored[t.version + 1 := rules], map[])
  }

  function Restated(t: Table): Table { t.(stored := t.stored[t.version := t.rules]) }

  lemma {:induction false} ReadThenWrite(t: Table, job: nat, change: Change)
    requires t.read == map[]
    ensures Next(Next(t, Read(job)), Write(job, change))
         == if change.NewRules? then Advanced(t, change.rules) else Restated(t)
  {
    assert t.read[job := Seen(t.version, t.rules)] - {job} == map[];
  }

  lemma {:induction false} WriteAdvances(s: State, t: State, id: int, k: int, rules: Rules)
    requires id in s.policies && id in t.policies && WritesVersion(s, t, id, k, rules)
    requires k == s.policies[id].version + 1 == t.policies[id].version && t.policies[id].rules == Serialized(rules)
    ensures ViewOf(t, id) == Advanced(ViewOf(s, id), rules)
  {
    StoredAfterWrite(s.versions, id, k, t.versions[(id, k)]);
  }

  lemma {:induction false} WriteRestates(s: State, t: State, id: int)
    requires id in s.policies && id in t.policies
    requires WritesVersion(s, t, id, s.policies[id].version, Parse(s.policies[id].rules))
    requires t.policies[id].version == s.policies[id].version && t.policies[id].rules == s.policies[id].rules
    ensures ViewOf(t, id) == Restated(ViewOf(s, id))
  {
    StoredAfterWrite(s.versions, id, s.policies[id].version, t.versions[(id, s.policies[id].version)]);
  }

  lemma {:induction false} PersistWrites(
    versions: map<(int, int), Version>, key: (int, int), tenant: int, status: string, rules: Rules,
    actor: string, approver: Option<string>, now: Time)
    ensures var next := PersistVersion(versions, key, tenant, status, rules, actor, approver, now);
            key in next && next == versions[key := next[key]] && next[key].rules == Serialized(rules)
  {
  }

  lemma {:induction false} UpdateAdvances(s: State, op: Op)
    requires op.Update? && op.id in s.policies
    ensures ViewOf(UpdateStep(s, op), op.id) == Advanced(ViewOf(s, op.id), Parse(op.text))
  {
    var p, t := s.policies[op.id], UpdateStep(s, op);
    var status := t.policies[op.id].status;
    PersistWrites(s.versions, (op.id, p.version + 1), op.tenant, status, Parse(op.text), op.actor,
                  AsPublished(status, op.actor), op.now);
    WriteAdvances(s, t, op.id, p.version + 1, Parse(op.text));
  }

  lemma {:induction false} RollbackAdvances(s: State, op: Op)
    requires op.Rollback? && op.id in s.policies && (op.id, op.target) in s.versions
    ensures ViewOf(RollbackStep(s, op), op.id)
         == Advanced(ViewOf(s, op.id), Parse(s.versions[(op.id, op.target)].rules))
  {
    var k, rules := s.policies[op.id].version + 1, Parse(s.versions[(op.id, op.target)].rules);
    PersistWrites(s.versions, (op.id, k), op.tenant, "published", rules, op.actor, Some(op.actor), op.now);
    WriteAdvances(s, RollbackStep(s, op), op.id, k, rules);
  }

  lemma {:induction false} PublishRestates(s: State, op: Op)
    requires op.Publish? && op.id in s.policies
    ensures ViewOf(PublishStep(s, op), op.id) == Restated(ViewOf(s, op.id))
  {
    var p := s.policies[op.id];
    PersistWrites(s.versions, (op.id, p.version), op.tenant, "published", Parse(p.rules), op.actor,
                  Some(op.actor), op.now);
    WriteRestates(s, PublishStep(s, op), op.id);
  }

  lemma {:induction false} ApproveRestates(s: State, op: Op)
    requires op.Approve? && op.id in s.policies
    ensures ViewOf(ApproveStep(s, op), op.id) == Restated(ViewOf(s, op.id))
  {
    var p := s.policies[op.id];
    PersistWrites(s.versions, (op.id, p.version), op.tenant, "approved", Parse(p.rules), op.actor,
                  Some(op.actor), op.now);
    WriteRestates(s, ApproveStep(s, op), op.id);
  }

  /** What a successful operation of the policy history writes. */
  function ChangeOf(s: State, op: Op): Change
    requires op.Rollback? ==> (op.id, op.target) in s.versions
  {
    match op
    case Update(_, _, text, _, _, _) => NewRules(Parse(text))
    case Rollback(_, id, target, _, _) => NewRules(Parse(s.versions[(id, target)].rules))
    case _ => SameRules
  }

  /** Read and write without anything in between are one operation of the policy history. */
  lemma {:induction false} WithoutOverlapIsStep(s: State, op: Op, acceptable: Rules -> bool, job: nat)
    requires op.Update? || op.Rollback? || op.Publish? || op.Approve?
    requires Step(s, op, acceptable).1.Done?
    ensures op.id in s.policies && op.id in Step(s, op, acceptable).0.policies
    ensures op.Rollback? ==> (op.id, op.target) in s.versions
    ensures ViewOf(Step(s, op, acceptable).0, op.id)
         == Next(Next(ViewOf(s, op.id), Read(job)), Write(job, ChangeOf(s, op)))
  {
    ReadThenWrite(ViewOf(s, op.id), job, ChangeOf(s, op));
    match op
    case Update(_, _, _, _, _, _) => UpdateAdvances(s, op);
    case Rollback(_, _, _, _, _) => RollbackAdvances(s, op);
    case Publish(_, _, _, _) => PublishRestates(s, op);
    case Approve(_, _, _, _) => ApproveRestates(s, op);
  }
}
