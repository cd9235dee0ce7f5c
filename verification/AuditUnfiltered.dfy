/**
 The audit log read without a tenant filter (verify_audit.py): one chain with gapless ids is expected across all
 rows, although every creation links within its own tenant and a rolled-back insert leaves a gap.
 */
module AuditUnfiltered {
  import opened Options
  import opened HashChain
  import opened AuditLog
  import opened AuditCreation
  import opened AuditOrder
  import opened AuditVerdicts

  /** All hashed rows belong to one tenant. */
  ghost predicate OneTenant(s: Store) {
    forall k: nat, i: nat :: IsHashed(s, k) && IsHashed(s, i) ==> SameTenant(s, k, i)
  }

  /** Between two hashed rows every id has a hashed row. */
  ghost predicate Gapless(s: Store) {
    forall k: nat, j: nat, i: nat :: k < j < i && IsHashed(s, k) && IsHashed(s, i) ==> IsHashed(s, j)
  }

  predicate IdsFollow(rows: seq<LogRow>) { forall i :: 0 < i < |rows| ==> rows[i].id == rows[i - 1].id + 1 }

  // ---------------------------------------------------------------- ids

  lemma {:induction false} FaultWithIds(active: seq<LogRow>, i: nat)
    requires i < |active|
    ensures FaultAt(active, i, true).None?
       <==> FaultAt(active, i, false).None? && (i > 0 ==> active[i].id == active[i - 1].id + 1)
  {
  }

  lemma {:induction false} SoundWithIds(active: seq<LogRow>)
    ensures SoundUpTo(active, |active|, true) <==> SoundUpTo(active, |active|, false) && IdsFollow(active)
  {
    forall i | 0 <= i < |active|
      ensures FaultAt(active, i, true).None?
         <==> FaultAt(active, i, false).None? && (i > 0 ==> active[i].id == active[i - 1].id + 1)
    {
      FaultWithIds(active, i);
    }
  }

  lemma {:induction false} IdsCount(rows: seq<LogRow>, i: nat, j: nat)
    requires IdsFollow(rows) && i <= j < |rows|
    ensures rows[j].id == rows[i].id + (j - i)
  {
    if i < j { IdsCount(rows, i, j - 1); }
  }

  lemma {:induction false} PlaceOfRow(s: Store, n: nat) returns (i: nat)
    requires StoreInv(s) && n < |HashedOf(s.created)|
    ensures IsHashed(s, i) && s.created[i].row == HashedOf(s.created)[n] && s.created[i].row.id == s.firstId + i
  {
    assert HashedOf(s.created)[n] in HashedOf(s.created);
    i := HashedRow(s.created, HashedOf(s.created)[n]);
  }

  lemma {:induction false} RowOfPlace(s: Store, i: nat) returns (n: nat)
    requires StoreInv(s) && IsHashed(s, i)
    ensures n < |HashedOf(s.created)| && HashedOf(s.created)[n] == s.created[i].row
  {
    RowIsHashed(s.created, i);
    n := PlaceIn(HashedOf(s.created), s.created[i].row);
  }

  lemma {:induction false} FollowingIdsAreGapless(s: Store, k: nat, j: nat, i: nat)
    requires StoreInv(s) && IdsFollow(HashedOf(s.created)) && k < j < i && IsHashed(s, k) && IsHashed(s, i)
    ensures IsHashed(s, j)
  {
    var rows := HashedOf(s.created);
    var front := RowOfPlace(s, k);
    var back := RowOfPlace(s, i);
    HashedIncrease(s.created, s.firstId);
    SmallerIdInFront(rows, front, back);
    IdsCount(rows, front, back);
    IdsCount(rows, front, front + (j - k));
    var p := PlaceOfRow(s, front + (j - k));
    assert p == j;
  }

  lemma {:induction false} GaplessIdsFollow(s: Store, n: nat)
    requires StoreInv(s) && Gapless(s) && 0 < n < |HashedOf(s.created)|
    ensures HashedOf(s.created)[n].id == HashedOf(s.created)[n - 1].id + 1
  {
    var rows := HashedOf(s.created);
    HashedIncrease(s.created, s.firstId);
    var k := PlaceOfRow(s, n - 1);
    var i := PlaceOfRow(s, n);
    assert rows[n - 1].id < rows[n].id;
    if k + 1 < i {
      assert IsHashed(s, k + 1);
      var m := RowOfPlace(s, k + 1);
      SmallerIdInFront(rows, n - 1, m);
      SmallerIdInFront(rows, m, n);
      assert false;
    }
  }

  lemma {:induction false} IdsFollowIff(s: Store)
    requires StoreInv(s)
    ensures IdsFollow(HashedOf(s.created)) <==> Gapless(s)
  {
    if IdsFollow(HashedOf(s.created)) {
      forall k: nat, j: nat, i: nat | k < j < i && IsHashed(s, k) && IsHashed(s, i) ensures IsHashed(s, j) {
        FollowingIdsAreGapless(s, k, j, i);
      }
    } else if Gapless(s) {
      var n :| 0 < n < |HashedOf(s.created)| && HashedOf(s.created)[n].id != HashedOf(s.created)[n - 1].id + 1;
      GaplessIdsFollow(s, n);
      assert false;
    }
  }

  // ---------------------------------------------------------------- tenants

  lemma {:induction false} OneRowPerHash(s: Store, k: nat, m: nat)
    requires StoreInv(s) && IsHashed(s, k) && IsHashed(s, m)
    requires s.created[k].row.integrity == s.created[m].row.integrity
    ensures k == m
  {
    assert IsSealed(s.created[k]) && IsSealed(s.created[m]);
  }

  /** A chain cannot cross a change of tenant: the link would have to leave its tenant. */
  lemma {:induction false} ChainStaysInTenant(s: Store, n: nat)
    requires StoreInv(s) && Chained(Blocks(HashedOf(s.created))) && 0 < n < |HashedOf(s.created)|
    ensures HashedOf(s.created)[n].tenant == HashedOf(s.created)[n - 1].tenant
  {
    var rows := HashedOf(s.created);
    LinkAt(Blocks(rows), n);
    var i := PlaceOfRow(s, n);
    var m := PlaceOfRow(s, n - 1);
    assert rows[n].previous == rows[n - 1].integrity;
    var k := LinkIsHashedRow(s, i);
    if k.Some? { OneRowPerHash(s, k.value, m); } else { assert false; }
  }

  lemma {:induction false} ChainHasOneTenant(s: Store, n: nat)
    requires StoreInv(s) && Chained(Blocks(HashedOf(s.created))) && n < |HashedOf(s.created)|
    ensures HashedOf(s.created)[n].tenant == HashedOf(s.created)[0].tenant
  {
    if n > 0 {
      ChainHasOneTenant(s, n - 1);
      ChainStaysInTenant(s, n);
    }
  }

  lemma {:induction false} ChainedIsOneTenant(s: Store)
    requires StoreInv(s) && Chained(Blocks(HashedOf(s.created)))
    ensures OneTenant(s)
  {
    forall k: nat, i: nat | IsHashed(s, k) && IsHashed(s, i) ensures SameTenant(s, k, i) {
      var m := RowOfPlace(s, k);
      var n := RowOfPlace(s, i);
      ChainHasOneTenant(s, m);
      ChainHasOneTenant(s, n);
    }
  }

  lemma {:induction false} AllLabelled(rows: seq<LogRow>, tenant: Option<int>)
    requires forall i :: 0 <= i < |rows| ==> rows[i].tenant == tenant
    ensures Labelled(rows, tenant) == rows
  {
    if rows != [] {
      AllLabelled(rows[..|rows| - 1], tenant);
      assert rows == rows[..|rows| - 1] + [rows[|rows| - 1]];
    }
  }

  lemma {:induction false} OwnerHasAll(s: Store, tenant: Option<int>)
    requires StoreInv(s) && forall k: nat :: IsHashed(s, k) ==> s.created[k].row.tenant == tenant
    ensures HashedFor(s, tenant) == HashedOf(s.created)
  {
    forall n | 0 <= n < |HashedOf(s.created)| ensures HashedOf(s.created)[n].tenant == tenant {
      var i := PlaceOfRow(s, n);
    }
    AllLabelled(HashedOf(s.created), tenant);
  }

  /** With one tenant, the rows of all tenants are a chain exactly when every tenant's are. */
  lemma {:induction false} OneTenantChainsIff(s: Store, ops: seq<Op>)
    requires IsLegacy(s) && OneTenant(Run(s, ops))
    ensures Chained(Blocks(HashedOf(Run(s, ops).created))) <==> forall tenant :: InTurn(s, ops, tenant)
  {
    var t := Run(s, ops);
    RunKeepsStoreInv(s, ops);
    var owner: Option<int> := None;
    if k: nat :| IsHashed(t, k) {
      owner := t.created[k].row.tenant;
      assert forall i: nat :: IsHashed(t, i) ==> SameTenant(t, k, i);
    }
    assert forall i: nat :: IsHashed(t, i) ==> t.created[i].row.tenant == owner;
    OwnerHasAll(t, owner);
    HashedRowsChainIff(s, ops, owner);
    forall tenant | tenant != owner ensures InTurn(s, ops, tenant) { AbsentIsInTurn(s, ops, tenant, owner); }
  }

  lemma {:induction false} AbsentIsInTurn(s: Store, ops: seq<Op>, tenant: Option<int>, owner: Option<int>)
    requires tenant != owner
    requires forall i: nat :: IsHashed(Run(s, ops), i) ==> Run(s, ops).created[i].row.tenant == owner
    ensures InTurn(s, ops, tenant)
  {
    forall k: nat, i: nat ensures !BothHashed(Run(s, ops), tenant, k, i) {
      assert IsHashed(Run(s, ops), i) ==> Run(s, ops).created[i].row.tenant == owner;
    }
  }

  // ---------------------------------------------------------------- the verdict

  lemma {:induction false} UnfilteredVerdictIff(v: Verdict, s: Store)
    requires StoreInv(s) && IsVerdict(v, Table(s), true) && NoneUnfinished(Table(s))
    ensures v.Valid? <==> Chained(Blocks(HashedOf(s.created))) && Gapless(s)
    ensures v.Valid? ==> v.checked == |HashedOf(s.created)|
  {
    ActiveIsHashed(Table(s));
    HashedOfTable(s);
    SoundWithIds(HashedOf(s.created));
    SoundIffChained(HashedOf(s.created));
    IdsFollowIff(s);
  }

  /**
   At any moment of any run, the unfiltered check succeeds if and only if all hashed rows belong to one tenant, no
   id between them is missing, their look-ups were in turn and no unfinished row follows a hashed one.
   */
  lemma {:induction false} UnfilteredLogVerifiesIff(s: Store, ops: seq<Op>, v: Verdict)
    requires IsLegacy(s) && IsVerdict(v, TenantRows(Table(Run(s, ops)), None), true)
    ensures var t := Run(s, ops);
            && (v.Valid? <==> OneTenant(t) && Gapless(t) && NoneUnfinished(Table(t))
                              && forall tenant :: InTurn(s, ops, tenant))
            && (v.Valid? ==> v.checked == |HashedRows(Table(t))|)
  {
    var t := Run(s, ops);
    RunKeepsStoreInv(s, ops);
    HashedOfTable(t);
    if NoneUnfinished(Table(t)) {
      UnfilteredVerdictIff(v, t);
      if Chained(Blocks(HashedOf(t.created))) { ChainedIsOneTenant(t); }
      if OneTenant(t) { OneTenantChainsIff(s, ops); }
    } else {
      UnfinishedIsReported(Table(t), v, true);
    }
  }

  /**
   As soon as two tenants have a hashed row, the unfiltered check fails, however well every tenant's own log
   verifies.
   */
  lemma {:induction false} TwoTenantsFailUnfiltered(s: Store, ops: seq<Op>, v: Verdict, k: nat, i: nat)
    requires IsLegacy(s) && IsVerdict(v, TenantRows(Table(Run(s, ops)), None), true)
    requires IsHashed(Run(s, ops), k) && IsHashed(Run(s, ops), i) && !SameTenant(Run(s, ops), k, i)
    ensures v.Invalid?
  {
    UnfilteredLogVerifiesIff(s, ops, v);
  }

  /** So it does as soon as an insert between two hashed rows was rolled back. */
  lemma {:induction false} RolledBackInsertFailsUnfiltered(s: Store, ops: seq<Op>, v: Verdict, k: nat, j: nat, i: nat)
    requires IsLegacy(s) && IsVerdict(v, TenantRows(Table(Run(s, ops)), None), true)
    requires k < j < i && IsHashed(Run(s, ops), k) && IsHashed(Run(s, ops), i)
    requires Run(s, ops).created[j].phase.RolledBack?
    ensures v.Invalid?
  {
    RunKeepsStoreInv(s, ops);
    assert IsSealed(Run(s, ops).created[j]) && !IsHashed(Run(s, ops), j);
    UnfilteredLogVerifiesIff(s, ops, v);
  }
}
