/**
 The verdict on a tenant's log (verify_audit.py): at any moment, also while creations are under way or after one
 has crashed; at rest; and when a tenant creates one block at a time.
 */
module AuditVerdicts {
  import opened Options
  import opened HashChain
  import opened AuditLog
  import opened AuditCreation
  import opened AuditOrder

  /** The rows with a hash. */
  function HashedRows(rows: seq<LogRow>): seq<LogRow> {
    if rows == [] then []
    else
      var before, last := HashedRows(rows[..|rows| - 1]), rows[|rows| - 1];
      if last.integrity.Some? then before + [last] else before
  }

  /** No row without a hash follows one with a hash. */
  predicate NoneUnfinished(rows: seq<LogRow>) {
    forall i, j :: 0 <= i < j < |rows| && rows[i].integrity.Some? ==> rows[j].integrity.Some?
  }

  // ---------------------------------------------------------------- the hashed rows of a table

  lemma {:induction false} HashedOfParts(a: seq<LogRow>, b: seq<LogRow>)
    ensures HashedRows(a + b) == HashedRows(a) + HashedRows(b)
  {
    if b == [] {
      assert a + b == a;
    } else {
      HashedOfParts(a, b[..|b| - 1]);
      assert (a + b)[..|a + b| - 1] == a + b[..|b| - 1];
    }
  }

  lemma {:induction false} AllHashed(rows: seq<LogRow>)
    requires forall i :: 0 <= i < |rows| ==> rows[i].integrity.Some?
    ensures HashedRows(rows) == rows
  {
    if rows != [] {
      AllHashed(rows[..|rows| - 1]);
      assert rows == rows[..|rows| - 1] + [rows[|rows| - 1]];
    }
  }

  lemma {:induction false} NoneHashed(rows: seq<LogRow>)
    requires forall i :: 0 <= i < |rows| ==> rows[i].integrity.None?
    ensures HashedRows(rows) == []
  {
    if rows != [] { NoneHashed(rows[..|rows| - 1]); }
  }

  lemma {:induction false} HashedAndLabelled(rows: seq<LogRow>, tenant: Option<int>)
    ensures HashedRows(Labelled(rows, tenant)) == Labelled(HashedRows(rows), tenant)
  {
    if rows != [] {
      var before, last := rows[..|rows| - 1], rows[|rows| - 1];
      HashedAndLabelled(before, tenant);
      LastKept(Labelled(before, tenant), last);
      LastKept(HashedRows(before), last);
    }
  }

  lemma {:induction false} LastKept(before: seq<LogRow>, last: LogRow)
    ensures (before + [last])[..|before + [last]| - 1] == before
  {
  }

  lemma {:induction false} HashedAreVisible(created: seq<Creation>)
    requires forall i :: 0 <= i < |created| ==> IsSealed(created[i])
    ensures HashedRows(Visible(created)) == HashedOf(created)
  {
    if created != [] {
      var before, last := created[..|created| - 1], created[|created| - 1];
      HashedAreVisible(before);
      LastKept(Visible(before), last.row);
    }
  }

  lemma {:induction false} HashedOfTable(s: Store)
    requires StoreInv(s)
    ensures HashedRows(Table(s)) == HashedOf(s.created)
  {
    NoneHashed(s.legacy);
    HashedOfParts(s.legacy, Visible(s.created));
    HashedAreVisible(s.created);
  }

  lemma {:induction false} HashedOfTenant(s: Store, tenant: Option<int>)
    requires StoreInv(s)
    ensures HashedRows(Labelled(Table(s), tenant)) == HashedFor(s, tenant)
  {
    HashedAndLabelled(Table(s), tenant);
    HashedOfTable(s);
  }

  // ---------------------------------------------------------------- the verdict on any rows

  /** Whatever stands in front of the active part has no hash. */
  lemma {:induction false} HashedFromStart(rows: seq<LogRow>)
    ensures HashedRows(rows) == HashedRows(Active(rows))
  {
    var start := ChainStart(rows);
    NoneHashed(rows[..start]);
    HashedOfParts(rows[..start], rows[start..]);
    assert rows == rows[..start] + rows[start..];
  }

  lemma {:induction false} ActiveIsHashed(rows: seq<LogRow>)
    requires NoneUnfinished(rows)
    ensures Active(rows) == HashedRows(rows)
  {
    HashedFromStart(rows);
    AllHashed(Active(rows));
  }

  lemma {:induction false} UnhashedIsFaulty(active: seq<LogRow>, n: nat, v: Verdict, allTenants: bool)
    requires n < |active| && active[n].integrity.None? && IsVerdictOn(v, active, allTenants)
    ensures v.Invalid?
  {
    assert FaultAt(active, n, allTenants) == Some(MissingHashMetadata);
  }

  lemma {:induction false} BehindStart(rows: seq<LogRow>, i: nat, j: nat)
    requires i < j < |rows| && rows[i].integrity.Some?
    ensures ChainStart(rows) < j && Active(rows)[j - ChainStart(rows)] == rows[j]
  {
  }

  lemma {:induction false} UnfinishedIsReported(rows: seq<LogRow>, v: Verdict, allTenants: bool)
    requires !NoneUnfinished(rows) && IsVerdict(v, rows, allTenants)
    ensures v.Invalid?
  {
    var i, j :| 0 <= i < j < |rows| && rows[i].integrity.Some? && rows[j].integrity.None?;
    BehindStart(rows, i, j);
    UnhashedIsFaulty(Active(rows), j - ChainStart(rows), v, allTenants);
  }

  lemma {:induction false} HashedPrefix(rows: seq<LogRow>, n: nat)
    requires n <= |rows| && Chained(Blocks(HashedRows(rows)))
    ensures Chained(Blocks(HashedRows(rows[..n])))
  {
    var part := HashedRows(rows[..n]);
    HashedOfParts(rows[..n], rows[n..]);
    assert rows == rows[..n] + rows[n..];
    ChainedPrefix(Blocks(HashedRows(rows)), |part|);
    assert Blocks(HashedRows(rows))[..|part|] == Blocks(part);
  }

  lemma {:induction false} HashedRowIsSound(active: seq<LogRow>, n: nat)
    requires n < |active| && forall i :: 0 <= i <= n ==> active[i].integrity.Some?
    requires Chained(Blocks(HashedRows(active)))
    ensures FaultAt(active, n, false).None?
  {
    HashedPrefix(active, n + 1);
    AllHashed(active[..n + 1]);
    SoundIffChained(active[..n + 1]);
    SoundPrefix(active, n + 1);
  }

  /** While the hashed rows are a chain, missing metadata is the only fault there can be. */
  lemma {:induction false} OnlyMissingMetadata(rows: seq<LogRow>, v: Verdict)
    requires Chained(Blocks(HashedRows(rows))) && IsVerdict(v, rows, false) && v.Invalid?
    ensures v.fault == MissingHashMetadata
  {
    var active, n := Active(rows), v.checked;
    forall i | 0 <= i < n ensures active[i].integrity.Some? { SoundRowIsHashed(active, i); }
    HashedFromStart(rows);
    if active[n].integrity.Some? { HashedRowIsSound(active, n); }
  }

  // ---------------------------------------------------------------- at any moment

  /**
   At any moment of any run, creations under way or crashed: a tenant's log is accepted if and only if every hashed
   row looked up when those in front of it were hashed, and no unfinished row follows a hashed one.  Unfinished
   rows in front are taken for legacy rows.  As long as the look-ups are in turn, the only fault reported is
   missing metadata.
   */
  lemma {:induction false} LogVerifiesAnyTimeIff(s: Store, ops: seq<Op>, t: int, v: Verdict)
    requires IsLegacy(s) && IsVerdict(v, TenantRows(Table(Run(s, ops)), Some(t)), false)
    ensures var mine := TenantRows(Table(Run(s, ops)), Some(t));
            && (v.Valid? <==> InTurn(s, ops, Some(t)) && NoneUnfinished(mine))
            && (v.Valid? ==> v.checked == |HashedRows(mine)|)
            && (v.Invalid? && InTurn(s, ops, Some(t)) ==> v.fault == MissingHashMetadata)
  {
    var mine := Labelled(Table(Run(s, ops)), Some(t));
    RunKeepsStoreInv(s, ops);
    HashedRowsChainIff(s, ops, Some(t));
    HashedOfTenant(Run(s, ops), Some(t));
    VerdictIsChaining(v, mine);
    if !NoneUnfinished(mine) {
      UnfinishedIsReported(mine, v, false);
    } else {
      ActiveIsHashed(mine);
    }
    if InTurn(s, ops, Some(t)) && v.Invalid? { OnlyMissingMetadata(mine, v); }
  }

  // ---------------------------------------------------------------- at rest

  /** Neither finished nor rolled back; a crashed creation stays so. */
  predicate IsUnderWay(c: Creation) { !c.phase.RolledBack? && c.row.integrity.None? }

  predicate AtRest(s: Store, tenant: Option<int>) {
    forall i :: 0 <= i < |s.created| && s.created[i].row.tenant == tenant ==> !IsUnderWay(s.created[i])
  }

  predicate IsKept(s: Store, tenant: Option<int>, i: nat) {
    i < |s.created| && s.created[i].row.tenant == tenant && !s.created[i].phase.RolledBack?
  }

  /** Row k is the tenant's row in front of row i, legacy rows aside. */
  predicate IsRowBefore(s: Store, tenant: Option<int>, k: nat, i: nat) {
    k < i && IsKept(s, tenant, k) && IsKept(s, tenant, i) && forall m: nat :: k < m < i ==> !IsKept(s, tenant, m)
  }

  lemma {:induction false} RestingIsFinished(s: Store, tenant: Option<int>)
    requires StoreInv(s) && AtRest(s, tenant)
    ensures NoneUnfinished(Labelled(Table(s), tenant))
  {
    var mine := Labelled(Table(s), tenant);
    TableIncreases(s);
    LabelledAreRows(Table(s), tenant);
    forall i, j | 0 <= i < j < |mine| && mine[i].integrity.Some? ensures mine[j].integrity.Some? {
      assert mine[i] in mine && mine[j] in mine;
      RowAfterHashed(s, mine[i], mine[j]);
    }
  }

  lemma {:induction false} RowAfterHashed(s: Store, q: LogRow, r: LogRow)
    requires StoreInv(s) && AtRest(s, r.tenant) && q in Table(s) && r in Table(s)
    requires q.integrity.Some? && q.id < r.id
    ensures r.integrity.Some?
  {
    if q in s.legacy { assert false; }
    var k := VisibleRow(s.created, q);
    if r in s.legacy { assert false; }
    var i := VisibleRow(s.created, r);
    assert !IsUnderWay(s.created[i]);
  }

  lemma {:induction false} RestingAreHashed(created: seq<Creation>, tenant: Option<int>)
    requires forall i :: 0 <= i < |created| ==> IsSealed(created[i])
    requires forall i :: 0 <= i < |created| && created[i].row.tenant == tenant ==> !IsUnderWay(created[i])
    ensures Labelled(HashedOf(created), tenant) == Labelled(Visible(created), tenant)
  {
    if created != [] {
      var before, last := created[..|created| - 1], created[|created| - 1];
      RestingAreHashed(before, tenant);
      LastKept(HashedOf(before), last.row);
      LastKept(Visible(before), last.row);
    }
  }

  lemma {:induction false} RestingPair(s: Store, tenant: Option<int>, k: nat, i: nat)
    requires StoreInv(s) && AtRest(s, tenant)
    ensures BothHashed(s, tenant, k, i) <==> IsKept(s, tenant, k) && IsKept(s, tenant, i)
  {
    if k < |s.created| { assert IsSealed(s.created[k]); }
    if i < |s.created| { assert IsSealed(s.created[i]); }
  }

  lemma {:induction false} RestingNeighbours(s: Store, tenant: Option<int>, k: nat, i: nat)
    requires StoreInv(s) && AtRest(s, tenant)
    ensures AreNeighbours(s, tenant, k, i) <==> IsRowBefore(s, tenant, k, i)
  {
    RestingPair(s, tenant, k, i);
    forall m: nat ensures BothHashed(s, tenant, m, i) <==> IsKept(s, tenant, m) && IsKept(s, tenant, i) {
      RestingPair(s, tenant, m, i);
    }
  }

  /**
   However the creations of all tenants interleave, a tenant with none under way has a log that verifies if and
   only if every row looked up when the tenant's row in front of it was hashed already; every row since the chain
   began is then checked.
   */
  lemma {:induction false} LogVerifiesIffLookUpsInOrder(s: Store, ops: seq<Op>, t: int, v: Verdict)
    requires IsLegacy(s) && AtRest(Run(s, ops), Some(t))
    requires IsVerdict(v, TenantRows(Table(Run(s, ops)), Some(t)), false)
    ensures v.Valid? <==> forall k: nat, i: nat :: IsRowBefore(Run(s, ops), Some(t), k, i) ==> Saw(s, ops, k, i)
    ensures v.Valid? ==> v.checked == |TenantRows(Visible(Run(s, ops).created), Some(t))|
  {
    var r := Run(s, ops);
    RunKeepsStoreInv(s, ops);
    RestingIsFinished(r, Some(t));
    LogVerifiesAnyTimeIff(s, ops, t, v);
    InTurnIffNeighboursSaw(s, ops, Some(t));
    forall k: nat, i: nat ensures AreNeighbours(r, Some(t), k, i) <==> IsRowBefore(r, Some(t), k, i) {
      RestingNeighbours(r, Some(t), k, i);
    }
    HashedOfTenant(r, Some(t));
    RestingAreHashed(r.created, Some(t));
  }

  // ---------------------------------------------------------------- one block at a time

  /** A tenant inserts only when it has no creation under way. */
  predicate OneAtATime(s: Store, ops: seq<Op>, tenant: Option<int>) {
    ops == []
    || (var before, op := ops[..|ops| - 1], ops[|ops| - 1];
        OneAtATime(s, before, tenant)
        && (op.Insert? && op.entry.tenant == tenant ==> AtRest(Run(s, before), tenant)))
  }

  predicate IsSettled(s: Store, k: nat) { k < |s.created| && !IsUnderWay(s.created[k]) }

  lemma {:induction false} SettledStays(s: Store, op: Op, k: nat)
    requires StoreInv(s) && IsSettled(s, k)
    ensures IsSettled(Step(s, op), k)
    ensures IsHashed(Step(s, op), k) ==> IsHashed(s, k)
  {
    StepKeepsCreation(s, op, k);
  }

  /** One at a time, whatever stands in front of a row is hashed, and was seen, or rolled back. */
  lemma {:induction false} SerialisedPair(s: Store, ops: seq<Op>, tenant: Option<int>, k: nat, i: nat)
    requires IsLegacy(s) && OneAtATime(s, ops, tenant) && k < i < |Run(s, ops).created|
    requires Run(s, ops).created[k].row.tenant == tenant == Run(s, ops).created[i].row.tenant
    ensures IsSettled(Run(s, ops), k)
    ensures IsHashed(Run(s, ops), k) && Run(s, ops).created[i].phase.LookedUp? ==> Saw(s, ops, k, i)
  {
    var before, op := ops[..|ops| - 1], ops[|ops| - 1];
    var t := Run(s, before);
    RunKeepsStoreInv(s, before);
    if i < |t.created| {
      StepKeepsCreation(t, op, k);
      StepKeepsCreation(t, op, i);
      SerialisedPair(s, before, tenant, k, i);
      SettledStays(t, op, k);
      if !(op == LookUp(i) && IsNext(t, op)) && !t.created[i].phase.LookedUp? { NotLookedUpYet(t, op, i); }
    } else {
      assert op.Insert? && !IsUnderWay(t.created[k]);
    }
  }

  /** Serialising a tenant's creations puts its look-ups in turn, whatever the other tenants do in between. */
  lemma {:induction false} SerialisedIsInTurn(s: Store, ops: seq<Op>, tenant: Option<int>)
    requires IsLegacy(s) && OneAtATime(s, ops, tenant)
    ensures InTurn(s, ops, tenant)
  {
    RunKeepsStoreInv(s, ops);
    forall k: nat, i: nat | k < i && BothHashed(Run(s, ops), tenant, k, i) ensures Saw(s, ops, k, i) {
      assert IsSealed(Run(s, ops).created[i]);
      SerialisedPair(s, ops, tenant, k, i);
    }
  }

  lemma {:induction false} SerialisedLogVerifies(s: Store, ops: seq<Op>, t: int, v: Verdict)
    requires IsLegacy(s) && OneAtATime(s, ops, Some(t)) && AtRest(Run(s, ops), Some(t))
    requires IsVerdict(v, TenantRows(Table(Run(s, ops)), Some(t)), false)
    ensures v.Valid? && v.checked == |TenantRows(Visible(Run(s, ops).created), Some(t))|
  {
    SerialisedIsInTurn(s, ops, Some(t));
    InTurnIffNeighboursSaw(s, ops, Some(t));
    RunKeepsStoreInv(s, ops);
    forall k: nat, i: nat | IsRowBefore(Run(s, ops), Some(t), k, i) ensures Saw(s, ops, k, i) {
      RestingNeighbours(Run(s, ops), Some(t), k, i);
    }
    LogVerifiesIffLookUpsInOrder(s, ops, t, v);
  }

  // ---------------------------------------------------------------- tenants do not interfere

  lemma {:induction false} LabelledOfParts(a: seq<LogRow>, b: seq<LogRow>, tenant: Option<int>)
    ensures Labelled(a + b, tenant) == Labelled(a, tenant) + Labelled(b, tenant)
  {
    if b == [] {
      assert a + b == a;
    } else {
      LabelledOfParts(a, b[..|b| - 1], tenant);
      assert (a + b)[..|a + b| - 1] == a + b[..|b| - 1];
    }
  }

  lemma {:induction false} LastVisible(created: seq<Creation>, n: nat, tenant: Option<int>)
    requires |created| == n + 1 && created[n].row.tenant != tenant
    ensures Labelled(Visible(created), tenant) == Labelled(Visible(created[..n]), tenant)
  {
    LastKept(Visible(created[..n]), created[n].row);
  }

  lemma {:induction false} SameEnds(created: seq<Creation>, next: seq<Creation>, n: nat, tenant: Option<int>)
    requires |created| == |next| == n + 1 && created[n] == next[n]
    requires Labelled(Visible(created[..n]), tenant) == Labelled(Visible(next[..n]), tenant)
    ensures Labelled(Visible(created), tenant) == Labelled(Visible(next), tenant)
  {
    LastKept(Visible(created[..n]), created[n].row);
    LastKept(Visible(next[..n]), next[n].row);
  }

  lemma {:induction false} OtherTenantsRow(created: seq<Creation>, i: nat, c: Creation, tenant: Option<int>)
    requires i < |created| && created[i].row.tenant != tenant && c.row.tenant != tenant
    ensures Labelled(Visible(created[i := c]), tenant) == Labelled(Visible(created), tenant)
  {
    var n := |created| - 1;
    var next := created[i := c];
    if i < n {
      OtherTenantsRow(created[..n], i, c, tenant);
      assert next[..n] == created[..n][i := c];
      SameEnds(created, next, n, tenant);
    } else {
      assert next[..n] == created[..n];
      LastVisible(created, n, tenant);
      LastVisible(next, n, tenant);
    }
  }

  lemma {:induction false} InsertedIsInvisible(created: seq<Creation>, c: Creation)
    requires c.phase.Inserted?
    ensures Visible(created + [c]) == Visible(created)
  {
    assert (created + [c])[..|created|] == created;
  }

  /** A step in another tenant's creation changes nothing that a tenant's verification or look-up reads. */
  lemma {:induction false} OtherTenantsStep(s: Store, op: Op, t: int)
    requires op.Insert? || (op.i < |s.created| && s.created[op.i].row.tenant != Some(t))
    ensures TenantRows(Table(Step(s, op)), Some(t)) == TenantRows(Table(s), Some(t))
  {
    if op.Insert? {
      InsertedIsInvisible(s.created, Creation(NewRow(s.firstId + |s.created|, op.entry), Inserted));
    } else if IsNext(s, op) {
      LabelledOfParts(s.legacy, Visible(s.created), Some(t));
      LabelledOfParts(s.legacy, Visible(Step(s, op).created), Some(t));
      OtherTenantsRow(s.created, op.i, After(s.created[op.i], s, op), Some(t));
    }
  }
}
