/**
 Policy lifecycle and version history (main.py): a current row per policy and an upserted table of
 versions.  Each operation is one database transaction.
 */
module PolicyHistory {
  import opened Options

  type Time = int

  /** A parsed rules object. */
  datatype Rules = Rules(json: string)

  const NO_RULES := Rules("{}")

  /** Stored or submitted rules text: the serialisation of an object, or text that is none. */
  datatype RulesText = Serialized(rules: Rules) | OtherText(text: string)

  function Parse(text: RulesText): Rules { if text.Serialized? then text.rules else NO_RULES }

  /** The current row. */
  datatype Policy = Policy(
    tenant: int, rules: RulesText, version: int, status: string,
    approvedBy: Option<string>, approvedAt: Option<Time>, publishedAt: Option<Time>, archivedAt: Option<Time>)

  /** A row of policy_versions, keyed by policy and version number. */
  datatype Version = Version(
    tenant: int, rules: RulesText, status: string, author: string, approver: Option<string>,
    createdAt: Time, approvedAt: Option<Time>, publishedAt: Option<Time>, archivedAt: Option<Time>)

  datatype State = State(policies: map<int, Policy>, versions: map<(int, int), Version>, nextId: int)

  datatype Op =
    | Seed(tenant: int, defaults: Rules, now: Time)
    | Create(tenant: int, text: RulesText, wanted: Option<string>, actor: string, now: Time)
    | Update(tenant: int, id: int, text: RulesText, wanted: Option<string>, actor: string, now: Time)
    | Publish(tenant: int, id: int, actor: string, now: Time)
    | Approve(tenant: int, id: int, actor: string, now: Time)
    | Archive(tenant: int, id: int, now: Time)
    | Rollback(tenant: int, id: int, target: int, actor: string, now: Time)
    | Delete(tenant: int, id: int)

  datatype Outcome = Done(version: int) | NotFound | BadRequest

  // ---------------------------------------------------------------- persist_policy_version

  function OrElse<T>(a: Option<T>, b: Option<T>): Option<T> { if a.Some? then a else b }

  function IfStatus(status: string, among: set<string>, now: Time): Option<Time> {
    if status in among then Some(now) else None
  }

  /** Insert the version, or on conflict update it; times once set are kept. */
  function PersistVersion(
    versions: map<(int, int), Version>, key: (int, int), tenant: int, status: string, rules: Rules,
    actor: string, approver: Option<string>, now: Time): map<(int, int), Version>
  {
    var approvedAt := IfStatus(status, {"approved", "published"}, now);
    var publishedAt := IfStatus(status, {"published"}, now);
    versions[key :=
      if key !in versions then
        Version(tenant, Serialized(rules), status, actor, approver, now, approvedAt, publishedAt, None)
      else
        var old_ := versions[key];
        old_.(status := status, rules := Serialized(rules), approver := OrElse(approver, old_.approver),
              approvedAt := OrElse(old_.approvedAt, approvedAt), publishedAt := OrElse(old_.publishedAt, publishedAt))]
  }

  // ---------------------------------------------------------------- one operation

  function OrDefault(wanted: Option<string>, default_: string): string {
    if wanted.Some? && wanted.value != "" then wanted.value else default_
  }

  predicate Owns(s: State, tenant: int, id: int) { id in s.policies && s.policies[id].tenant == tenant }

  function AsPublished(status: string, actor: string): Option<string> {
    if status == "published" then Some(actor) else None
  }

  function CreateStep(s: State, op: Op): State
    requires op.Create?
  {
    var rules, status := Parse(op.text), OrDefault(op.wanted, "published");
    var at := IfStatus(status, {"published"}, op.now);
    State(
      s.policies[s.nextId := Policy(op.tenant, Serialized(rules), 1, status, AsPublished(status, op.actor), at, at,
          None)],
      PersistVersion(s.versions, (s.nextId, 1), op.tenant, status, rules, op.actor, AsPublished(status, op.actor),
          op.now),
      s.nextId + 1)
  }

  function UpdateStep(s: State, op: Op): State
    requires op.Update? && op.id in s.policies
  {
    var p := s.policies[op.id];
    var rules, status, v := Parse(op.text), OrDefault(op.wanted, OrDefault(Some(p.status), "published")), p.version + 1;
    var at := IfStatus(status, {"published"}, op.now);
    s.(policies := s.policies[op.id := p.(
         rules := Serialized(rules), version := v, status := status, publishedAt := OrElse(p.publishedAt, at),
         approvedBy := OrElse(AsPublished(status, op.actor), p.approvedBy), approvedAt := OrElse(p.approvedAt, at))],
       versions := PersistVersion(s.versions, (op.id, v), op.tenant, status, rules, op.actor,
           AsPublished(status, op.actor), op.now))
  }

  function PublishStep(s: State, op: Op): State
    requires op.Publish? && op.id in s.policies
  {
    var p := s.policies[op.id];
    s.(policies := s.policies[op.id := p.(
         status := "published", publishedAt := Some(op.now), approvedBy := Some(op.actor),
         approvedAt := OrElse(p.approvedAt, Some(op.now)))],
       versions := PersistVersion(s.versions, (op.id, p.version), op.tenant, "published", Parse(p.rules), op.actor,
           Some(op.actor), op.now))
  }

  /** Approving touches the version table only. */
  function ApproveStep(s: State, op: Op): State
    requires op.Approve? && op.id in s.policies
  {
    var p := s.policies[op.id];
    s.(versions := PersistVersion(s.versions, (op.id, p.version), op.tenant, "approved", Parse(p.rules), op.actor,
        Some(op.actor), op.now))
  }

  function ArchiveStep(s: State, op: Op): State
    requires op.Archive? && op.id in s.policies
  {
    var p := s.policies[op.id];
    var key := (op.id, p.version);
    s.(policies := s.policies[op.id := p.(status := "archived", archivedAt := Some(op.now))],
       versions := if key in s.versions && s.versions[key].tenant == op.tenant
                   then s.versions[key := s.versions[key].(status := "archived", archivedAt := Some(op.now))]
                       else s.versions)
  }

  function RollbackStep(s: State, op: Op): State
    requires op.Rollback? && op.id in s.policies && (op.id, op.target) in s.versions
  {
    var p, rules := s.policies[op.id], Parse(s.versions[(op.id, op.target)].rules);
    s.(policies := s.policies[op.id := p.(
         rules := Serialized(rules), version := p.version + 1, status := "published",
         approvedBy := Some(op.actor), approvedAt := Some(op.now), publishedAt := Some(op.now))],
       versions := PersistVersion(s.versions, (op.id, p.version + 1), op.tenant, "published", rules, op.actor,
           Some(op.actor), op.now))
  }

  /** Deleting a policy cascades to its versions. */
  function DeleteStep(s: State, op: Op): State
    requires op.Delete?
  {
    s.(policies := s.policies - {op.id}, versions := map key | key in s.versions && key.0 != op.id :: s.versions[key])
  }

  /** `acceptable` is the lifecycle validation of rules. */
  function Step(s: State, op: Op, acceptable: Rules -> bool): (State, Outcome) {
    match op
    case Seed(tenant, defaults, now) =>
      (s.(policies := s.policies[s.nextId := Policy(tenant, Serialized(defaults), 1, "published", None, None,
          Some(now), None)],
          nextId := s.nextId + 1), Done(1))
    case Create(_, _, _, _, _) => (CreateStep(s, op), Done(1))
    case Update(tenant, id, _, _, _, _) =>
      if !Owns(s, tenant, id) then (s, NotFound) else (UpdateStep(s, op), Done(s.policies[id].version + 1))
    case Publish(tenant, id, _, _) =>
      if !Owns(s, tenant, id) then (s, NotFound)
      else if !acceptable(Parse(s.policies[id].rules)) then (s, BadRequest)
      else (PublishStep(s, op), Done(s.policies[id].version))
    case Approve(tenant, id, _, _) =>
      if !Owns(s, tenant, id) then (s, NotFound) else (ApproveStep(s, op), Done(s.policies[id].version))
    case Archive(tenant, id, _) =>
      if !Owns(s, tenant, id) then (s, NotFound) else (ArchiveStep(s, op), Done(s.policies[id].version))
    case Rollback(tenant, id, target, _, _) =>
      if target <= 0 then (s, BadRequest)
      else if !((id, target) in s.versions && s.versions[(id, target)].tenant == tenant) then (s, NotFound)
      else if !acceptable(Parse(s.versions[(id, target)].rules)) then (s, BadRequest)
      else if !Owns(s, tenant, id) then (s, NotFound)
      else (RollbackStep(s, op), Done(s.policies[id].version + 1))
    case Delete(tenant, id) =>
      if !Owns(s, tenant, id) then (s, NotFound) else (DeleteStep(s, op), Done(s.policies[id].version))
  }

  const EMPTY := State(map[], map[], 1)

  function Run(s: State, ops: seq<Op>, acceptable: Rules -> bool): State {
    if ops == [] then s else Step(Run(s, ops[..|ops| - 1], acceptable), ops[|ops| - 1], acceptable).0
  }

  // ---------------------------------------------------------------- what every operation keeps

  predicate PolicyInv(s: State, id: int)
    requires id in s.policies
  {
    var p := s.policies[id];
    && id < s.nextId && p.version >= 1 && p.rules.Serialized?
    && ((id, p.version) in s.versions ==> s.versions[(id, p.version)].rules == p.rules)
  }

  predicate VersionInv(s: State, key: (int, int))
    requires key in s.versions
  {
    var v := s.versions[key];
    && key.0 in s.policies && 1 <= key.1 <= s.policies[key.0].version
    && v.tenant == s.policies[key.0].tenant && v.rules.Serialized?
    && (v.publishedAt.Some? ==> v.approvedAt.Some?)
  }

  predicate Inv(s: State) {
    && (forall id :: id in s.policies ==> PolicyInv(s, id))
    && (forall key :: key in s.versions ==> VersionInv(s, key))
  }

  lemma {:induction false} StepKeepsPolicy(s: State, op: Op, acceptable: Rules -> bool, id: int)
    requires Inv(s) && id in Step(s, op, acceptable).0.policies
    ensures PolicyInv(Step(s, op, acceptable).0, id)
  {
    assert id in s.policies ==> PolicyInv(s, id);
  }

  lemma {:induction false} StepKeepsVersion(s: State, op: Op, acceptable: Rules -> bool, key: (int, int))
    requires Inv(s) && key in Step(s, op, acceptable).0.versions
    ensures VersionInv(Step(s, op, acceptable).0, key)
  {
    assert key in s.versions ==> VersionInv(s, key);
    assert key.0 in s.policies ==> PolicyInv(s, key.0);
  }

  lemma {:induction false} StepKeepsInv(s: State, op: Op, acceptable: Rules -> bool)
    requires Inv(s)
    ensures Inv(Step(s, op, acceptable).0)
  {
    var next := Step(s, op, acceptable).0;
    forall id | id in next.policies ensures PolicyInv(next, id) { StepKeepsPolicy(s, op, acceptable, id); }
    forall key | key in next.versions ensures VersionInv(next, key) { StepKeepsVersion(s, op, acceptable, key); }
  }

  lemma {:induction false} RunKeepsInv(s: State, ops: seq<Op>, acceptable: Rules -> bool)
    requires Inv(s)
    ensures Inv(Run(s, ops, acceptable))
  {
    if ops != [] {
      RunKeepsInv(s, ops[..|ops| - 1], acceptable);
      StepKeepsInv(Run(s, ops[..|ops| - 1], acceptable), ops[|ops| - 1], acceptable);
    }
  }

  /** What a version row keeps for as long as its policy exists. */
  predicate Preserves(before: Version, after: Version) {
    && after.rules == before.rules && after.tenant == before.tenant
    && after.author == before.author && after.createdAt == before.createdAt
    && (before.approvedAt.Some? ==> after.approvedAt == before.approvedAt)
    && (before.publishedAt.Some? ==> after.publishedAt == before.publishedAt)
  }

  lemma {:induction false} StepPreservesVersions(s: State, op: Op, acceptable: Rules -> bool, key: (int, int))
    requires Inv(s) && key in s.versions
    ensures var next := Step(s, op, acceptable).0;
            key.0 in next.policies ==> key in next.versions && Preserves(s.versions[key], next.versions[key])
                                       && s.policies[key.0].version <= next.policies[key.0].version
  {
    assert VersionInv(s, key) && PolicyInv(s, key.0);
  }

  lemma {:induction false} StepNeverRevives(s: State, op: Op, acceptable: Rules -> bool, id: int)
    requires Inv(s) && id < s.nextId && id !in s.policies
    ensures var next := Step(s, op, acceptable).0; id !in next.policies && s.nextId <= next.nextId
  {
  }

  // ---------------------------------------------------------------- main results

  /**
   Over every sequence of operations: a stored version keeps its rules, author and creation time, and its
   approval and publication times once set, until its policy is deleted; the policy's version
   number never falls and bounds every stored version.
   */
  lemma {:induction false} VersionsAreImmutable(
    past: seq<Op>, future: seq<Op>, acceptable: Rules -> bool, key: (int, int))
    requires key in Run(EMPTY, past, acceptable).versions
    ensures var s := Run(EMPTY, past, acceptable);
            var t := Run(s, future, acceptable);
            key.0 in s.policies
            && (key.0 in t.policies ==>
                  && key in t.versions && Preserves(s.versions[key], t.versions[key])
                  && 1 <= key.1 <= s.policies[key.0].version <= t.policies[key.0].version)
    decreases |future|
  {
    var s := Run(EMPTY, past, acceptable);
    RunKeepsInv(EMPTY, past, acceptable);
    assert VersionInv(s, key) && PolicyInv(s, key.0);
    if future != [] {
      var before, op := future[..|future| - 1], future[|future| - 1];
      VersionsAreImmutable(past, before, acceptable, key);
      var mid := Run(s, before, acceptable);
      RunKeepsInv(s, before, acceptable);
      if key.0 in mid.policies {
        StepPreservesVersions(mid, op, acceptable, key);
      } else {
        IdsOnlyGrow(s, before, acceptable);
        StepNeverRevives(mid, op, acceptable, key.0);
      }
    }
  }

  lemma {:induction false} IdsOnlyGrow(s: State, ops: seq<Op>, acceptable: Rules -> bool)
    ensures s.nextId <= Run(s, ops, acceptable).nextId
  {
    if ops != [] { IdsOnlyGrow(s, ops[..|ops| - 1], acceptable); }
  }

  /** Updates and rollbacks that succeed take the next version number and store it; nothing else changes the number. */
  lemma {:induction false} OnlyUpdateAndRollbackAdvance(s: State, op: Op, acceptable: Rules -> bool, id: int)
    requires Inv(s) && id in s.policies && id in Step(s, op, acceptable).0.policies
    ensures var (next, outcome) := Step(s, op, acceptable);
            var v := s.policies[id].version;
            if (op.Update? || op.Rollback?) && op.id == id && outcome.Done?
            then next.policies[id].version == v + 1 == outcome.version
                 && (id, v + 1) !in s.versions && (id, v + 1) in next.versions
                 && next.versions[(id, v + 1)].rules == next.policies[id].rules
            else next.policies[id].version == v && next.policies[id].rules == s.policies[id].rules
  {
    assert PolicyInv(s, id);
    assert (id, s.policies[id].version + 1) in s.versions ==> VersionInv(s, (id, s.policies[id].version + 1));
  }

  /**
   A rollback succeeds exactly for stored, acceptable rules of a positive version, which it makes current and also
   keeps.
   */
  lemma {:induction false} RollbackRestores(s: State, op: Op, acceptable: Rules -> bool)
    requires Inv(s) && op.Rollback?
    ensures var (next, outcome) := Step(s, op, acceptable);
            var key := (op.id, op.target);
            && (outcome.Done? <==>
                  key in s.versions && s.versions[key].tenant == op.tenant && acceptable(Parse(s.versions[key].rules)))
            && (outcome.Done? ==>
                  next.policies[op.id].rules == s.versions[key].rules
                  && key in next.versions && next.versions[key] == s.versions[key])
            && (!outcome.Done? ==> next == s)
  {
    var key := (op.id, op.target);
    assert key in s.versions ==> VersionInv(s, key);
  }

  /** Versions are stored as they are made; only the first one, of a seeded policy, can be missing. */
  predicate Complete(s: State) {
    forall id, v :: id in s.policies && 2 <= v <= s.policies[id].version ==> (id, v) in s.versions
  }

  lemma {:induction false} StepKeepsComplete(s: State, op: Op, acceptable: Rules -> bool)
    requires Inv(s) && Complete(s)
    ensures Complete(Step(s, op, acceptable).0)
  {
    var next := Step(s, op, acceptable).0;
    forall id, v | id in next.policies && 2 <= v <= next.policies[id].version
      ensures (id, v) in next.versions
    {
      if id in s.policies && v <= s.policies[id].version { assert (id, v) in s.versions; }
    }
  }

  lemma {:induction false} RunKeepsComplete(ops: seq<Op>, acceptable: Rules -> bool)
    ensures Inv(Run(EMPTY, ops, acceptable)) && Complete(Run(EMPTY, ops, acceptable))
  {
    RunKeepsInv(EMPTY, ops, acceptable);
    if ops != [] {
      var before := ops[..|ops| - 1];
      RunKeepsComplete(before, acceptable);
      StepKeepsComplete(Run(EMPTY, before, acceptable), ops[|ops| - 1], acceptable);
    }
  }

  /**
   In every reachable state a tenant's rollback succeeds if and only if its target lies between 1 and the
   policy's current version, has acceptable rules, and is not an unstored first version.
   */
  lemma {:induction false} RollbackSucceedsIff(past: seq<Op>, op: Op, acceptable: Rules -> bool)
    requires op.Rollback? && Owns(Run(EMPTY, past, acceptable), op.tenant, op.id)
    ensures var s := Run(EMPTY, past, acceptable);
            var key := (op.id, op.target);
            Step(s, op, acceptable).1.Done?
            <==> (if op.target == 1 then key in s.versions else 2 <= op.target <= s.policies[op.id].version)
                 && (key in s.versions ==> acceptable(Parse(s.versions[key].rules)))
  {
    var s := Run(EMPTY, past, acceptable);
    RunKeepsComplete(past, acceptable);
    RollbackRestores(s, op, acceptable);
    assert (op.id, op.target) in s.versions ==> VersionInv(s, (op.id, op.target));
  }

  /** A policy never changes hands. */
  lemma {:induction false} TenantStays(s: State, ops: seq<Op>, acceptable: Rules -> bool, id: int)
    requires Inv(s) && id in s.policies
    ensures id in Run(s, ops, acceptable).policies ==>
        Run(s, ops, acceptable).policies[id].tenant == s.policies[id].tenant
    ensures s.nextId <= Run(s, ops, acceptable).nextId
  {
    if ops != [] {
      var before, op := ops[..|ops| - 1], ops[|ops| - 1];
      TenantStays(s, before, acceptable, id);
      RunKeepsInv(s, before, acceptable);
      assert PolicyInv(s, id);
      var mid := Run(s, before, acceptable);
      if id !in mid.policies { StepNeverRevives(mid, op, acceptable, id); }
    }
  }

  /**
   Rolling back returns to the past: whatever happened since, a rollback to a version that was current and
   stored at some moment brings back the rules of that moment, unless the lifecycle validation refuses them.
   */
  lemma {:induction false} RollbackReturnsToThePast(
    past: seq<Op>, since: seq<Op>, acceptable: Rules -> bool, id: int, actor: string, now: Time)
    requires var s := Run(EMPTY, past, acceptable); id in s.policies && (id, s.policies[id].version) in s.versions
    requires id in Run(Run(EMPTY, past, acceptable), since, acceptable).policies
    ensures var s := Run(EMPTY, past, acceptable);
            var then_ := s.policies[id];
            var (next, outcome) := Step(Run(s, since, acceptable),
                Rollback(then_.tenant, id, then_.version, actor, now), acceptable);
            && (outcome.Done? <==> acceptable(Parse(then_.rules)))
            && (outcome.Done? ==> next.policies[id].rules == then_.rules)
  {
    var s := Run(EMPTY, past, acceptable);
    var then_ := s.policies[id];
    var key := (id, then_.version);
    RunKeepsInv(EMPTY, past, acceptable);
    RunKeepsInv(s, since, acceptable);
    VersionsAreImmutable(past, since, acceptable, key);
    TenantStays(s, since, acceptable, id);
    assert PolicyInv(s, id) && VersionInv(s, key);
    RollbackRestores(Run(s, since, acceptable), Rollback(then_.tenant, id, then_.version, actor, now), acceptable);
  }

  /** Seeded default policies have no stored version, so their first update cannot be undone. */
  lemma {:induction false} SeededDefaultsCannotBeRestored(
    tenant: int, defaults: Rules, text: RulesText, acceptable: Rules -> bool)
    ensures Step(Run(EMPTY, [Seed(tenant, defaults, 0), Update(tenant, 1, text, None, "editor", 1)], acceptable),
                 Rollback(tenant, 1, 1, "editor", 2), acceptable).1 == NotFound
  {
    var seed, update := Seed(tenant, defaults, 0), Update(tenant, 1, text, None, "editor", 1);
    assert [seed, update][..1] == [seed] && [seed][..0] == [];
    var s1 := Step(EMPTY, seed, acceptable).0;
    var s2 := Step(s1, update, acceptable).0;
    assert Run(EMPTY, [seed], acceptable) == s1;
    assert Run(EMPTY, [seed, update], acceptable) == s2;
    assert s1.versions == map[] && s2.versions.Keys == {(1, 2)};
  }

  /** A draft that is approved: the version row says approved, the policy still draft. */
  lemma {:induction false} ApprovedDraftStaysDraft(tenant: int, text: RulesText, acceptable: Rules -> bool)
    ensures var s := Run(EMPTY, [Create(tenant, text, Some("draft"), "author", 0), Approve(tenant, 1, "approver", 1)],
        acceptable);
            && 1 in s.policies && (1, 1) in s.versions
            && s.policies[1].version == 1 && s.policies[1].status == "draft" && s.versions[(1, 1)].status == "approved"
  {
    var create, approve := Create(tenant, text, Some("draft"), "author", 0), Approve(tenant, 1, "approver", 1);
    assert [create, approve][..1] == [create] && [create][..0] == [];
    var s1 := Step(EMPTY, create, acceptable).0;
    assert "draft"[0] != "published"[0];
    assert s1.policies[1].status == "draft" && Owns(s1, tenant, 1);
    var s2 := Step(s1, approve, acceptable).0;
    assert Run(EMPTY, [create], acceptable) == s1;
    assert Run(EMPTY, [create, approve], acceptable) == s2;
  }

  // ---------------------------------------------------------------- the handlers

  class PolicyStore {
    var policies: map<int, Policy>
    var versions: map<(int, int), Version>
    var nextId: int
    const acceptable: Rules -> bool

    ghost function View(): State
      reads this
    {
      State(policies, versions, nextId)
    }

    constructor (acceptable: Rules -> bool)
      ensures View() == EMPTY && this.acceptable == acceptable
    {
      policies, versions, nextId, this.acceptable := map[], map[], 1, acceptable;
    }

    method PersistPolicyVersion(
      key: (int, int), tenant: int, status: string, rules: Rules, actor: string, approver: Option<string>, now: Time)
      modifies this`versions
      ensures versions == PersistVersion(old(versions), key, tenant, status, rules, actor, approver, now)
    {
      var approved := status == "approved" || status == "published";
      if key !in versions {
        versions := versions[key := Version(tenant, Serialized(rules), status, actor, approver, now,
                                            if approved then Some(now) else None,
                                            if status == "published" then Some(now) else None, None)];
        return;
      }
      var v := versions[key].(status := status, rules := Serialized(rules));
      if approver.Some? { v := v.(approver := approver); }
      if approved && v.approvedAt.None? { v := v.(approvedAt := Some(now)); }
      if status == "published" && v.publishedAt.None? { v := v.(publishedAt := Some(now)); }
      versions := versions[key := v];
    }

    method CreatePolicy(
      tenant: int, text: RulesText, wanted: Option<string>, actor: string, now: Time) returns (outcome: Outcome)
      modifies this
      ensures (View(), outcome) == Step(old(View()), Create(tenant, text, wanted, actor, now), acceptable)
    {
      var rules, status := Parse(text), OrDefault(wanted, "published");
      var p := Policy(tenant, Serialized(rules), 1, status, None, None, None, None);
      if status == "published" {
        p := p.(approvedBy := Some(actor), approvedAt := Some(now), publishedAt := Some(now));
      }
      policies := policies[nextId := p];
      PersistPolicyVersion((nextId, 1), tenant, status, rules, actor, AsPublished(status, actor), now);
      nextId := nextId + 1;
      outcome := Done(1);
    }

    method UpdatePolicy(
      tenant: int, id: int, text: RulesText, wanted: Option<string>, actor: string,
      now: Time) returns (outcome: Outcome)
      modifies this
      ensures (View(), outcome) == Step(old(View()), Update(tenant, id, text, wanted, actor, now), acceptable)
    {
      if id !in policies || policies[id].tenant != tenant { return NotFound; }
      var p, rules := policies[id], Parse(text);
      var v, status := p.version + 1, OrDefault(wanted, OrDefault(Some(p.status), "published"));
      p := p.(rules := Serialized(rules), version := v, status := status);
      if status == "published" {
        p := p.(approvedBy := Some(actor));
        if p.publishedAt.None? { p := p.(publishedAt := Some(now)); }
        if p.approvedAt.None? { p := p.(approvedAt := Some(now)); }
      }
      policies := policies[id := p];
      PersistPolicyVersion((id, v), tenant, status, rules, actor, AsPublished(status, actor), now);
      outcome := Done(v);
    }

    method PublishPolicy(tenant: int, id: int, actor: string, now: Time) returns (outcome: Outcome)
      modifies this
      ensures (View(), outcome) == Step(old(View()), Publish(tenant, id, actor, now), acceptable)
    {
      if id !in policies || policies[id].tenant != tenant { return NotFound; }
      var p := policies[id];
      var rules := Parse(p.rules);
      if !acceptable(rules) { return BadRequest; }
      p := p.(status := "published", publishedAt := Some(now), approvedBy := Some(actor));
      if p.approvedAt.None? { p := p.(approvedAt := Some(now)); }
      policies := policies[id := p];
      PersistPolicyVersion((id, p.version), tenant, "published", rules, actor, Some(actor), now);
      outcome := Done(p.version);
    }

    method ApprovePolicyChange(tenant: int, id: int, actor: string, now: Time) returns (outcome: Outcome)
      modifies this
      ensures (View(), outcome) == Step(old(View()), Approve(tenant, id, actor, now), acceptable)
    {
      if id !in policies || policies[id].tenant != tenant { return NotFound; }
      PersistPolicyVersion((id, policies[id].version), tenant, "approved", Parse(policies[id].rules), actor,
          Some(actor), now);
      outcome := Done(policies[id].version);
    }

    method ArchivePolicy(tenant: int, id: int, now: Time) returns (outcome: Outcome)
      modifies this
      ensures (View(), outcome) == Step(old(View()), Archive(tenant, id, now), acceptable)
    {
      if id !in policies || policies[id].tenant != tenant { return NotFound; }
      var key := (id, policies[id].version);
      policies := policies[id := policies[id].(status := "archived", archivedAt := Some(now))];
      if key in versions && versions[key].tenant == tenant {
        versions := versions[key := versions[key].(status := "archived", archivedAt := Some(now))];
      }
      outcome := Done(key.1);
    }

    method RollbackPolicy(tenant: int, id: int, target: int, actor: string, now: Time) returns (outcome: Outcome)
      modifies this
      ensures (View(), outcome) == Step(old(View()), Rollback(tenant, id, target, actor, now), acceptable)
    {
      if target <= 0 { return BadRequest; }
      if (id, target) !in versions || versions[(id, target)].tenant != tenant { return NotFound; }
      var rules := Parse(versions[(id, target)].rules);
      if !acceptable(rules) { return BadRequest; }
      if id !in policies || policies[id].tenant != tenant { return NotFound; }
      var v := policies[id].version + 1;
      policies := policies[id := policies[id].(rules := Serialized(rules), version := v, status := "published",
                                               approvedBy := Some(actor), approvedAt := Some(now),
                                               publishedAt := Some(now))];
      PersistPolicyVersion((id, v), tenant, "published", rules, actor, Some(actor), now);
      outcome := Done(v);
    }

    method DeletePolicy(tenant: int, id: int) returns (outcome: Outcome)
      modifies this
      ensures (View(), outcome) == Step(old(View()), Delete(tenant, id), acceptable)
    {
      if id !in policies || policies[id].tenant != tenant { return NotFound; }
      outcome := Done(policies[id].version);
      policies := policies - {id};
      versions := map key | key in versions && key.0 != id :: versions[key];
    }
  }
}
