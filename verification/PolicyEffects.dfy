/**
 What each operation on a policy (main.py) leaves behind, stated outright, and that tenants cannot touch one another's
 policies and versions.
 */
module PolicyEffects {
  import opened Options
  import opened PolicyHistory

  /** The rules of a text: its object, or the empty object when it is none. */
  predicate Reads(text: RulesText, rules: Rules) {
    match text
    case Serialized(parsed) => rules == parsed
    case OtherText(_) => rules == Rules("{}")
  }

  function FirstTime(before: Option<Time>, reached: bool, now: Time): Option<Time> {
    if before.Some? then before else if reached then Some(now) else None
  }

  /** The version row was inserted or updated, and no other: times once set, author and creation are kept. */
  predicate StoresVersion(
    s: State, t: State, id: int, k: int, tenant: int, rules: Rules, status: string, actor: string,
    approver: Option<string>, now: Time)
  {
    var key := (id, k);
    && key in t.versions && t.versions == s.versions[key := t.versions[key]]
    && var v, known := t.versions[key], key in s.versions;
       && v.rules == Serialized(rules) && v.status == status
       && v.tenant == (if known then s.versions[key].tenant else tenant)
       && v.author == (if known then s.versions[key].author else actor)
       && v.createdAt == (if known then s.versions[key].createdAt else now)
       && v.approver == (if approver.None? && known then s.versions[key].approver else approver)
       && v.approvedAt == FirstTime(if known then s.versions[key].approvedAt else None,
                                    status == "approved" || status == "published", now)
       && v.publishedAt == FirstTime(if known then s.versions[key].publishedAt else None, status == "published", now)
       && v.archivedAt == (if known then s.versions[key].archivedAt else None)
  }

  lemma {:induction false} PersistStores(
    s: State, t: State, id: int, k: int, tenant: int, rules: Rules, status: string, actor: string,
    approver: Option<string>, now: Time)
    requires t.versions == PersistVersion(s.versions, (id, k), tenant, status, rules, actor, approver, now)
    ensures StoresVersion(s, t, id, k, tenant, rules, status, actor, approver, now)
  {
  }

  /** The tenant's own policy. */
  predicate IsMine(s: State, tenant: int, id: int) { id in s.policies && s.policies[id].tenant == tenant }

  // ---------------------------------------------------------------- creation and update

  /** A new policy takes the next id as version 1, published unless another status is asked for, with a version row. */
  lemma {:induction false} CreateOutcome(s: State, op: Op, acceptable: Rules -> bool)
    requires op.Create?
    ensures var (t, outcome) := Step(s, op, acceptable);
            var id := s.nextId;
            var status := if op.wanted.None? || op.wanted.value == "" then "published" else op.wanted.value;
            && outcome == Done(1) && t.nextId == id + 1
            && id in t.policies && t.policies == s.policies[id := t.policies[id]]
            && var p := t.policies[id];
               && p.rules.Serialized? && Reads(op.text, p.rules.rules) && p.tenant == op.tenant
               && p.version == 1 && p.status == status && p.archivedAt.None?
               && (status == "published" ==>
                     p.approvedBy == Some(op.actor) && p.approvedAt == Some(op.now) == p.publishedAt)
               && (status != "published" ==> p.approvedBy.None? && p.approvedAt.None? && p.publishedAt.None?)
               && StoresVersion(s, t, id, 1, op.tenant, p.rules.rules, status, op.actor,
                                if status == "published" then Some(op.actor) else None, op.now)
  {
    var t := Step(s, op, acceptable).0;
    var p := t.policies[s.nextId];
    PersistStores(s, t, s.nextId, 1, op.tenant, p.rules.rules, p.status, op.actor,
                  AsPublished(p.status, op.actor), op.now);
  }

  /** Seeding stores the defaults as a published version 1, without a version row. */
  lemma {:induction false} SeedOutcome(s: State, op: Op, acceptable: Rules -> bool)
    requires op.Seed?
    ensures var (t, outcome) := Step(s, op, acceptable);
            && outcome == Done(1) && t.nextId == s.nextId + 1 && t.versions == s.versions
            && t.policies == s.policies[s.nextId := Policy(op.tenant, Serialized(op.defaults), 1, "published",
                                                          None, None, Some(op.now), None)]
  {
  }

  function UpdatedPolicy(p: Policy, rules: Rules, status: string, actor: string, now: Time): Policy {
    p.(rules := Serialized(rules), version := p.version + 1, status := status,
       publishedAt := FirstTime(p.publishedAt, status == "published", now),
       approvedAt := FirstTime(p.approvedAt, status == "published", now),
       approvedBy := if status == "published" then Some(actor) else p.approvedBy)
  }

  /** An update succeeds exactly for the tenant's own policy, and puts the given rules at the next version. */
  lemma {:induction false} UpdateOutcome(s: State, op: Op, acceptable: Rules -> bool)
    requires op.Update?
    ensures var (t, outcome) := Step(s, op, acceptable);
            && (!IsMine(s, op.tenant, op.id) ==> outcome == NotFound && t == s)
            && (IsMine(s, op.tenant, op.id) ==>
                  op.id in t.policies &&
                  var p, q := s.policies[op.id], t.policies[op.id];
                  var status := if op.wanted.Some? && op.wanted.value != "" then op.wanted.value
                                else if p.status != "" then p.status else "published";
                  && outcome == Done(p.version + 1) && t.nextId == s.nextId
                  && q.rules.Serialized? && Reads(op.text, q.rules.rules)
                  && q == UpdatedPolicy(p, q.rules.rules, status, op.actor, op.now)
                  && t.policies == s.policies[op.id := q]
                  && StoresVersion(s, t, op.id, p.version + 1, op.tenant, q.rules.rules, status, op.actor,
                                   if status == "published" then Some(op.actor) else None, op.now))
  {
    var t := Step(s, op, acceptable).0;
    if IsMine(s, op.tenant, op.id) {
      var p, q := s.policies[op.id], t.policies[op.id];
      PersistStores(s, t, op.id, p.version + 1, op.tenant, q.rules.rules, q.status, op.actor,
                    AsPublished(q.status, op.actor), op.now);
    }
  }

  // ---------------------------------------------------------------- publication, approval, archiving

  /** A publication succeeds exactly for the tenant's own policy with acceptable rules, which is then published. */
  lemma {:induction false} PublishOutcome(s: State, op: Op, acceptable: Rules -> bool)
    requires op.Publish? && (op.id in s.policies ==> s.policies[op.id].rules.Serialized?)
    ensures var (t, outcome) := Step(s, op, acceptable);
            && (!IsMine(s, op.tenant, op.id) ==> outcome == NotFound && t == s)
            && (IsMine(s, op.tenant, op.id) ==>
                  var p := s.policies[op.id];
                  var rules := p.rules.rules;
                  && (!acceptable(rules) ==> outcome == BadRequest && t == s)
                  && (acceptable(rules) ==>
                        && outcome == Done(p.version) && t.nextId == s.nextId
                        && t.policies == s.policies[op.id := p.(
                             status := "published", publishedAt := Some(op.now), approvedBy := Some(op.actor),
                             approvedAt := FirstTime(p.approvedAt, true, op.now))]
                        && StoresVersion(s, t, op.id, p.version, op.tenant, rules, "published", op.actor,
                                         Some(op.actor), op.now)))
  {
    var t := Step(s, op, acceptable).0;
    if IsMine(s, op.tenant, op.id) && acceptable(s.policies[op.id].rules.rules) {
      var p := s.policies[op.id];
      PersistStores(s, t, op.id, p.version, op.tenant, p.rules.rules, "published", op.actor, Some(op.actor), op.now);
    }
  }

  /** An approval marks the current version's row, and nothing else. */
  lemma {:induction false} ApproveOutcome(s: State, op: Op, acceptable: Rules -> bool)
    requires op.Approve? && (op.id in s.policies ==> s.policies[op.id].rules.Serialized?)
    ensures var (t, outcome) := Step(s, op, acceptable);
            && (!IsMine(s, op.tenant, op.id) ==> outcome == NotFound && t == s)
            && (IsMine(s, op.tenant, op.id) ==>
                  var p := s.policies[op.id];
                  && outcome == Done(p.version) && t.nextId == s.nextId && t.policies == s.policies
                  && StoresVersion(s, t, op.id, p.version, op.tenant, p.rules.rules, "approved", op.actor,
                                   Some(op.actor), op.now))
  {
    var t := Step(s, op, acceptable).0;
    if IsMine(s, op.tenant, op.id) {
      var p := s.policies[op.id];
      PersistStores(s, t, op.id, p.version, op.tenant, p.rules.rules, "approved", op.actor, Some(op.actor), op.now);
    }
  }

  /** Archiving marks the tenant's own policy and the row of its current version, if that is stored. */
  lemma {:induction false} ArchiveOutcome(s: State, op: Op, acceptable: Rules -> bool)
    requires Inv(s) && op.Archive?
    ensures var (t, outcome) := Step(s, op, acceptable);
            && (!IsMine(s, op.tenant, op.id) ==> outcome == NotFound && t == s)
            && (IsMine(s, op.tenant, op.id) ==>
                  var p := s.policies[op.id];
                  var key := (op.id, p.version);
                  && outcome == Done(p.version) && t.nextId == s.nextId
                  && t.policies == s.policies[op.id := p.(status := "archived", archivedAt := Some(op.now))]
                  && t.versions == if key !in s.versions then s.versions
                                   else s.versions[key := s.versions[key].(status := "archived",
                                                                           archivedAt := Some(op.now))])
  {
    if IsMine(s, op.tenant, op.id) && (op.id, s.policies[op.id].version) in s.versions {
      assert VersionInv(s, (op.id, s.policies[op.id].version));
    }
  }

  /** A rollback that succeeds publishes the rules of its target as the next version. */
  lemma {:induction false} RollbackOutcome(s: State, op: Op, acceptable: Rules -> bool)
    requires Inv(s) && op.Rollback?
    ensures var (t, outcome) := Step(s, op, acceptable);
            var found := IsMine(s, op.tenant, op.id) && (op.id, op.target) in s.versions;
            && (op.target <= 0 ==> outcome == BadRequest && t == s)
            && (op.target > 0 && !found ==> outcome == NotFound && t == s)
            && (op.target > 0 && found ==>
                  && s.versions[(op.id, op.target)].rules.Serialized?
                  && var p, rules := s.policies[op.id], s.versions[(op.id, op.target)].rules.rules;
                     && (!acceptable(rules) ==> outcome == BadRequest && t == s)
                     && (acceptable(rules) ==>
                           && outcome == Done(p.version + 1) && t.nextId == s.nextId
                           && t.policies == s.policies[op.id := p.(
                                rules := Serialized(rules), version := p.version + 1, status := "published",
                                approvedBy := Some(op.actor), approvedAt := Some(op.now), publishedAt := Some(op.now))]
                           && StoresVersion(s, t, op.id, p.version + 1, op.tenant, rules, "published", op.actor,
                                            Some(op.actor), op.now)))
  {
    var t := Step(s, op, acceptable).0;
    var key := (op.id, op.target);
    if key in s.versions {
      assert VersionInv(s, key);
      var rules := s.versions[key].rules.rules;
      if op.target > 0 && IsMine(s, op.tenant, op.id) && acceptable(rules) {
        PersistStores(s, t, op.id, s.policies[op.id].version + 1, op.tenant, rules, "published", op.actor,
                      Some(op.actor), op.now);
      }
    }
  }

  // ---------------------------------------------------------------- deletion

  /** A deletion succeeds exactly for the tenant's own policy, and takes it and its versions, and nothing else. */
  lemma {:induction false} DeleteOutcome(s: State, op: Op, acceptable: Rules -> bool)
    requires op.Delete?
    ensures var (t, outcome) := Step(s, op, acceptable);
            && (outcome.Done? <==> IsMine(s, op.tenant, op.id))
            && (!outcome.Done? ==> outcome == NotFound && t == s)
            && (outcome.Done? ==>
                  && t.nextId == s.nextId
                  && (forall id :: id in t.policies <==> id in s.policies && id != op.id)
                  && (forall id :: id in t.policies ==> t.policies[id] == s.policies[id])
                  && (forall key :: key in t.versions <==> key in s.versions && key.0 != op.id)
                  && (forall key :: key in t.versions ==> t.versions[key] == s.versions[key]))
  {
  }

  // ---------------------------------------------------------------- tenants

  function PoliciesOf(s: State, tenant: int): map<int, Policy> {
    map id | id in s.policies && s.policies[id].tenant == tenant :: s.policies[id]
  }

  function VersionsOf(s: State, tenant: int): map<(int, int), Version> {
    map key | key in s.versions && s.versions[key].tenant == tenant :: s.versions[key]
  }

  /** A policy stays as it is under every operation of another tenant. */
  lemma {:induction false} OthersKeepPolicy(s: State, op: Op, acceptable: Rules -> bool, tenant: int, id: int)
    requires Inv(s) && op.tenant != tenant
    ensures var t := Step(s, op, acceptable).0;
            IsMine(t, tenant, id) <==> IsMine(s, tenant, id)
    ensures IsMine(s, tenant, id) ==> Step(s, op, acceptable).0.policies[id] == s.policies[id]
  {
    if id in s.policies { assert PolicyInv(s, id); }
  }

  predicate HasVersion(s: State, tenant: int, key: (int, int)) {
    key in s.versions && s.versions[key].tenant == tenant
  }

  lemma {:induction false} OthersKeepVersion(s: State, op: Op, acceptable: Rules -> bool, tenant: int, key: (int, int))
    requires Inv(s) && op.tenant != tenant
    ensures var t := Step(s, op, acceptable).0;
            HasVersion(t, tenant, key) <==> HasVersion(s, tenant, key)
    ensures HasVersion(s, tenant, key) ==> Step(s, op, acceptable).0.versions[key] == s.versions[key]
  {
    if key in s.versions { assert VersionInv(s, key) && PolicyInv(s, key.0); }
    if key.0 in s.policies { assert PolicyInv(s, key.0); }
  }

  /** Whatever other tenants do, in any number of operations, a tenant's policies and version rows stay as they are. */
  lemma {:induction false} TenantsAreIsolated(
    past: seq<Op>, others: seq<Op>, acceptable: Rules -> bool, tenant: int)
    requires forall op :: op in others ==> op.tenant != tenant
    ensures var s := Run(EMPTY, past, acceptable);
            var t := Run(s, others, acceptable);
            PoliciesOf(t, tenant) == PoliciesOf(s, tenant) && VersionsOf(t, tenant) == VersionsOf(s, tenant)
    decreases |others|
  {
    if others != [] {
      var n := |others| - 1;
      var s := Run(EMPTY, past, acceptable);
      var mid := Run(s, others[..n], acceptable);
      TenantsAreIsolated(past, others[..n], acceptable, tenant);
      RunKeepsInv(EMPTY, past, acceptable);
      RunKeepsInv(s, others[..n], acceptable);
      OneOperationIsolates(mid, others[n], acceptable, tenant);
    }
  }

  lemma {:induction false} OneOperationIsolates(s: State, op: Op, acceptable: Rules -> bool, tenant: int)
    requires Inv(s) && op.tenant != tenant
    ensures PoliciesOf(Step(s, op, acceptable).0, tenant) == PoliciesOf(s, tenant)
    ensures VersionsOf(Step(s, op, acceptable).0, tenant) == VersionsOf(s, tenant)
  {
    var t := Step(s, op, acceptable).0;
    forall id ensures IsMine(t, tenant, id) <==> IsMine(s, tenant, id)
              ensures IsMine(s, tenant, id) ==> t.policies[id] == s.policies[id]
    {
      OthersKeepPolicy(s, op, acceptable, tenant, id);
    }
    forall key ensures HasVersion(t, tenant, key) <==> HasVersion(s, tenant, key)
               ensures HasVersion(s, tenant, key) ==> t.versions[key] == s.versions[key]
    {
      OthersKeepVersion(s, op, acceptable, tenant, key);
    }
    assert PoliciesOf(t, tenant) == PoliciesOf(s, tenant);
    assert VersionsOf(t, tenant) == VersionsOf(s, tenant);
  }
}
