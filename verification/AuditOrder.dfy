/**
 Which runs of interleaved creations leave a tenant's hashed rows chained (verify_audit.py): those in which every
 hashed row looked up when the tenant's hashed rows in front of it were hashed already.
 */
module AuditOrder {
  import opened Options
  import opened HashChain
  import opened AuditLog
  import opened AuditCreation

  /** Row k was hashed already when creation i looked up. */
  predicate Saw(s: Store, ops: seq<Op>, k: nat, i: nat) {
    ops != []
    && (var before, op := ops[..|ops| - 1], ops[|ops| - 1];
        Saw(s, before, k, i) || (op == LookUp(i) && IsNext(Run(s, before), op) && IsHashed(Run(s, before), k)))
  }

  /** Every hashed row of the tenant looked up after the tenant's hashed rows in front of it were hashed. */
  ghost predicate InTurn(s: Store, ops: seq<Op>, tenant: Option<int>) {
    forall k: nat, i: nat :: k < i && BothHashed(Run(s, ops), tenant, k, i) ==> Saw(s, ops, k, i)
  }

  predicate BothHashed(s: Store, tenant: Option<int>, k: nat, i: nat) {
    IsHashed(s, k) && IsHashed(s, i) && s.created[k].row.tenant == tenant == s.created[i].row.tenant
  }

  // ---------------------------------------------------------------- the hashed rows

  /** The rows whose second commit has happened, in id order. */
  function HashedOf(created: seq<Creation>): seq<LogRow> {
    if created == [] then []
    else
      var before, last := HashedOf(created[..|created| - 1]), created[|created| - 1];
      if last.row.integrity.Some? then before + [last.row] else before
  }

  lemma {:induction false} HashedRow(created: seq<Creation>, r: LogRow) returns (i: nat)
    requires r in HashedOf(created)
    ensures i < |created| && created[i].row == r && r.integrity.Some?
  {
    i := |created| - 1;
    if created[i].row != r || r.integrity.None? { i := HashedRow(created[..|created| - 1], r); }
  }

  lemma {:induction false} RowIsHashed(created: seq<Creation>, i: nat)
    requires i < |created| && created[i].row.integrity.Some?
    ensures created[i].row in HashedOf(created)
  {
    if i < |created| - 1 { RowIsHashed(created[..|created| - 1], i); }
  }

  lemma {:induction false} HashedIncrease(created: seq<Creation>, firstId: int)
    requires forall i: nat :: i < |created| ==> created[i].row.id == firstId + i
    ensures Increasing(HashedOf(created)) && forall r :: r in HashedOf(created) ==> r.id < firstId + |created|
  {
    if created != [] {
      HashedIncrease(created[..|created| - 1], firstId);
      var before := HashedOf(created[..|created| - 1]);
      forall i | 0 <= i < |before| ensures before[i].id < created[|created| - 1].row.id { assert before[i] in before; }
    }
  }

  lemma {:induction false} LabelledAreRows(rows: seq<LogRow>, tenant: Option<int>)
    ensures forall r :: r in Labelled(rows, tenant) <==> r in rows && r.tenant == tenant
    ensures Increasing(rows) ==> Increasing(Labelled(rows, tenant))
  {
    if rows != [] {
      var before, last := rows[..|rows| - 1], rows[|rows| - 1];
      LabelledAreRows(before, tenant);
      assert rows == before + [last];
      if Increasing(rows) { LastIsNewest(Labelled(before, tenant), before, last); }
    }
  }

  lemma {:induction false} LastIsNewest(mine: seq<LogRow>, before: seq<LogRow>, last: LogRow)
    requires Increasing(before + [last]) && Increasing(mine) && forall r :: r in mine ==> r in before
    ensures Increasing(mine + [last])
  {
    forall i | 0 <= i < |mine| ensures mine[i].id < last.id {
      assert mine[i] in mine;
      var k :| 0 <= k < |before| && before[k] == mine[i];
      assert (before + [last])[k] == before[k] && (before + [last])[|before|] == last;
    }
  }

  // ---------------------------------------------------------------- chaining, by links alone

  predicate OlderThan(d: Digest<Fields>, id: int) { d.Genesis? || (d.Sha? && d.fields.recordId < id) }

  predicate CarriesItsHash(r: LogRow) {
    r.previous.Some? && r.integrity == Some(RecordHash(r, r.previous.value))
  }

  ghost predicate LinksInto(rows: seq<LogRow>, r: LogRow)
    requires r.previous.Some?
  {
    r.previous.value.Genesis? || exists q :: q in rows && q.id < r.id && q.integrity == r.previous
  }

  /** Rows in id order, each with its own hash and a link to an earlier one of them or to nothing. */
  ghost predicate WellLinked(rows: seq<LogRow>) {
    Increasing(rows) && forall r :: r in rows ==> CarriesItsHash(r) && LinksInto(rows, r)
  }

  /** Row j links past row i, which stands in front of it. */
  predicate LinksPast(rows: seq<LogRow>, i: nat, j: nat) {
    i < j < |rows| && rows[j].previous.Some? && OlderThan(rows[j].previous.value, rows[i].id)
  }

  lemma {:induction false} PrefixIsWellLinked(rows: seq<LogRow>)
    requires rows != [] && WellLinked(rows)
    ensures WellLinked(rows[..|rows| - 1])
  {
    var n := |rows| - 1;
    var before, last := rows[..n], rows[n];
    assert rows == before + [last];
    forall r | r in before
      ensures CarriesItsHash(r) && LinksInto(before, r)
    {
      assert r in rows;
      var i :| 0 <= i < n && rows[i] == r;
      if !r.previous.value.Genesis? {
        var q :| q in rows && q.id < r.id && q.integrity == r.previous;
        assert q in before;
      }
    }
  }

  lemma {:induction false} OneRowPerId(rows: seq<LogRow>, q: LogRow, n: nat)
    requires Increasing(rows) && q in rows && n + 1 < |rows| && rows[n].id <= q.id < rows[n + 1].id
    ensures q == rows[n]
  {
    var k :| 0 <= k < |rows| && rows[k] == q;
    if k < n { assert false; } else if k > n + 1 { assert false; }
  }

  lemma {:induction false} LinksToNeighbour(rows: seq<LogRow>, n: nat)
    requires WellLinked(rows) && n + 1 < |rows| && !LinksPast(rows, n, n + 1)
    ensures rows[n + 1].previous == rows[n].integrity
  {
    assert rows[n + 1] in rows;
    var q :| q in rows && q.id < rows[n + 1].id && q.integrity == rows[n + 1].previous;
    assert CarriesItsHash(q);
    OneRowPerId(rows, q, n);
  }

  /** A row that links past no other links to the one before it. */
  lemma {:induction false} LastLinksToHead(rows: seq<LogRow>, n: nat)
    requires |rows| == n + 1 && WellLinked(rows) && forall i: nat :: !LinksPast(rows, i, n)
    ensures rows[n].previous == Some(Head(Blocks(rows[..n])))
  {
    assert rows[n] in rows;
    if n > 0 {
      LinksToNeighbour(rows, n - 1);
      assert rows[n - 1] in rows;
    } else if !rows[n].previous.value.Genesis? {
      assert false;
    }
  }

  /** Well-linked rows are a chain if and only if none links past another. */
  lemma {:induction false} ChainedIffNoneLinksPast(rows: seq<LogRow>)
    requires WellLinked(rows)
    ensures Chained(Blocks(rows)) <==> forall i: nat, j: nat :: !LinksPast(rows, i, j)
  {
    if Chained(Blocks(rows)) {
      forall i: nat, j: nat ensures !LinksPast(rows, i, j) {
        if LinksPast(rows, i, j) { ChainLinksPastNone(rows, i, j); assert false; }
      }
    } else if forall i: nat, j: nat :: !LinksPast(rows, i, j) {
      LinkingToAllIsChained(rows);
      assert false;
    }
  }

  lemma {:induction false} ChainLinksPastNone(rows: seq<LogRow>, i: nat, j: nat)
    requires Increasing(rows) && Chained(Blocks(rows)) && i < j < |rows|
    ensures !LinksPast(rows, i, j)
  {
    LinkAt(Blocks(rows), j);
  }

  lemma {:induction false} PrefixLinksPastNone(rows: seq<LogRow>, n: nat)
    requires n <= |rows| && forall i: nat, j: nat :: !LinksPast(rows, i, j)
    ensures forall i: nat, j: nat :: !LinksPast(rows[..n], i, j)
  {
    forall i: nat, j: nat ensures !LinksPast(rows[..n], i, j) {
      assert LinksPast(rows[..n], i, j) ==> LinksPast(rows, i, j);
    }
  }

  lemma {:induction false} ChainGrows(rows: seq<LogRow>, n: nat)
    requires |rows| == n + 1 && Chained(Blocks(rows[..n])) && CarriesItsHash(rows[n])
    requires rows[n].previous == Some(Head(Blocks(rows[..n])))
    ensures Chained(Blocks(rows))
  {
    ChainedAppend(Blocks(rows[..n]), BlockOf(rows[n]));
    assert Blocks(rows) == Blocks(rows[..n]) + [BlockOf(rows[n])];
  }

  lemma {:induction false} LinkingToAllIsChained(rows: seq<LogRow>)
    requires WellLinked(rows) && forall i: nat, j: nat :: !LinksPast(rows, i, j)
    ensures Chained(Blocks(rows))
  {
    if rows != [] {
      var n := |rows| - 1;
      PrefixIsWellLinked(rows);
      PrefixLinksPastNone(rows, n);
      LinkingToAllIsChained(rows[..n]);
      LastLinksToHead(rows, n);
      assert rows[n] in rows;
      ChainGrows(rows, n);
    }
  }

  // ---------------------------------------------------------------- what a run keeps for two creations

  /** Between k and i stands a hashed row of i's tenant that did not see k. */
  ghost predicate PassedBetween(s: Store, ops: seq<Op>, k: nat, i: nat)
    requires i < |Run(s, ops).created|
  {
    exists p: nat ::
      k < p < i && IsHashed(Run(s, ops), p) && SameTenant(Run(s, ops), p, i) && !Saw(s, ops, k, p)
  }

  /** A creation that saw k links to k or behind it; one that did not links past k, or so does a row in between. */
  ghost predicate PairInv(s: Store, ops: seq<Op>, k: nat, i: nat)
    requires k < i < |Run(s, ops).created|
  {
    var t := Run(s, ops);
    SameTenant(t, k, i) && t.created[i].phase.LookedUp? ==>
      var older := OlderThan(t.created[i].phase.previous, t.created[k].row.id);
      if Saw(s, ops, k, i) then !older else older || PassedBetween(s, ops, k, i)
  }

  lemma {:induction false} SeenIsHashed(s: Store, ops: seq<Op>, k: nat, i: nat)
    requires IsLegacy(s) && Saw(s, ops, k, i)
    ensures IsHashed(Run(s, ops), k)
    ensures i < |Run(s, ops).created| && Run(s, ops).created[i].phase.LookedUp?
  {
    var before, op := ops[..|ops| - 1], ops[|ops| - 1];
    RunKeepsStoreInv(s, before);
    if Saw(s, before, k, i) {
      SeenIsHashed(s, before, k, i);
      StepKeepsCreation(Run(s, before), op, i);
    }
    StepKeepsCreation(Run(s, before), op, k);
  }

  /** Once a creation has looked up, what it saw stays as it is. */
  lemma {:induction false} SawIsSettled(s: Store, ops: seq<Op>, k: nat, i: nat)
    requires ops != []
    requires var t := Run(s, ops[..|ops| - 1]); i < |t.created| && t.created[i].phase.LookedUp?
    ensures Saw(s, ops, k, i) <==> Saw(s, ops[..|ops| - 1], k, i)
  {
  }

  lemma {:induction false} LookUpKeepsPair(s: Store, ops: seq<Op>, k: nat, i: nat)
    requires IsLegacy(s) && ops != [] && ops[|ops| - 1] == LookUp(i)
    requires IsNext(Run(s, ops[..|ops| - 1]), LookUp(i)) && k < i < |Run(s, ops).created|
    ensures PairInv(s, ops, k, i)
  {
    var before := ops[..|ops| - 1];
    var t := Run(s, before);
    RunKeepsStoreInv(s, before);
    if Saw(s, before, k, i) { SeenIsHashed(s, before, k, i); assert false; }
    var p := FoundIsNewest(t, i);
    if p.Some? && k < p.value && SameTenant(t, k, i) && !IsHashed(t, k) {
      if Saw(s, before, k, p.value) { SeenIsHashed(s, before, k, p.value); assert false; }
      assert !Saw(s, ops, k, p.value);
      assert IsHashed(Run(s, ops), p.value) && SameTenant(Run(s, ops), p.value, i);
    }
  }

  lemma {:induction false} PassedStays(s: Store, ops: seq<Op>, k: nat, i: nat)
    requires IsLegacy(s) && ops != [] && i < |Run(s, ops[..|ops| - 1]).created|
    requires PassedBetween(s, ops[..|ops| - 1], k, i) && i < |Run(s, ops).created|
    ensures PassedBetween(s, ops, k, i)
  {
    var before, op := ops[..|ops| - 1], ops[|ops| - 1];
    var t := Run(s, before);
    RunKeepsStoreInv(s, before);
    var p: nat :| k < p < i && IsHashed(t, p) && SameTenant(t, p, i) && !Saw(s, before, k, p);
    StepKeepsCreation(t, op, p);
    StepKeepsCreation(t, op, i);
    assert IsSealed(t.created[p]);
    SawIsSettled(s, ops, k, p);
    assert IsHashed(Run(s, ops), p) && SameTenant(Run(s, ops), p, i);
  }

  lemma {:induction false} StepKeepsPair(s: Store, ops: seq<Op>, k: nat, i: nat)
    requires IsLegacy(s) && ops != [] && k < i < |Run(s, ops[..|ops| - 1]).created|
    requires PairInv(s, ops[..|ops| - 1], k, i) && i < |Run(s, ops).created|
    requires Run(s, ops[..|ops| - 1]).created[i].phase.LookedUp?
    ensures PairInv(s, ops, k, i)
  {
    var before := ops[..|ops| - 1];
    var t := Run(s, before);
    RunKeepsStoreInv(s, before);
    StepKeepsCreation(t, ops[|ops| - 1], k);
    StepKeepsCreation(t, ops[|ops| - 1], i);
    SawIsSettled(s, ops, k, i);
    if PassedBetween(s, before, k, i) { PassedStays(s, ops, k, i); }
  }

  lemma {:induction false} RunKeepsPair(s: Store, ops: seq<Op>, k: nat, i: nat)
    requires IsLegacy(s) && k < i < |Run(s, ops).created|
    ensures PairInv(s, ops, k, i)
  {
    if ops != [] {
      var before, op := ops[..|ops| - 1], ops[|ops| - 1];
      var t := Run(s, before);
      if op == LookUp(i) && IsNext(t, op) {
        LookUpKeepsPair(s, ops, k, i);
      } else if i < |t.created| && t.created[i].phase.LookedUp? {
        RunKeepsPair(s, before, k, i);
        StepKeepsPair(s, ops, k, i);
      } else {
        RunKeepsStoreInv(s, before);
        NotLookedUpYet(t, op, i);
      }
    }
  }

  lemma {:induction false} NotLookedUpYet(s: Store, op: Op, i: nat)
    requires i < |s.created| ==> !s.created[i].phase.LookedUp?
    requires i < |Step(s, op).created| && !(op == LookUp(i) && IsNext(s, op))
    ensures !Step(s, op).created[i].phase.LookedUp?
  {
  }

  // ---------------------------------------------------------------- one tenant's hashed rows

  function HashedFor(s: Store, tenant: Option<int>): seq<LogRow> { Labelled(HashedOf(s.created), tenant) }

  lemma {:induction false} HashedForAreRows(s: Store, tenant: Option<int>)
    requires StoreInv(s)
    ensures Increasing(HashedFor(s, tenant))
    ensures forall r :: r in HashedFor(s, tenant) ==>
              s.firstId <= r.id < s.firstId + |s.created|
              && r == s.created[r.id - s.firstId].row && r.tenant == tenant && r.integrity.Some?
    ensures forall k: nat :: IsHashed(s, k) && s.created[k].row.tenant == tenant ==>
              s.created[k].row in HashedFor(s, tenant)
  {
    HashedIncrease(s.created, s.firstId);
    LabelledAreRows(HashedOf(s.created), tenant);
    forall r | r in HashedFor(s, tenant)
      ensures s.firstId <= r.id < s.firstId + |s.created| && r == s.created[r.id - s.firstId].row && r.integrity.Some?
    {
      var i := HashedRow(s.created, r);
    }
    forall k: nat | IsHashed(s, k) ensures s.created[k].row in HashedOf(s.created) { RowIsHashed(s.created, k); }
  }

  lemma {:induction false} LinkIsHashedRow(s: Store, i: nat) returns (k: Option<nat>)
    requires StoreInv(s) && IsHashed(s, i)
    ensures CarriesItsHash(s.created[i].row)
    ensures k.None? ==> s.created[i].row.previous == Some(Genesis)
    ensures k.Some? ==> k.value < i && IsHashed(s, k.value) && SameTenant(s, k.value, i)
                        && s.created[k.value].row.integrity == s.created[i].row.previous
  {
    k := None;
    assert IsSealed(s.created[i]) && LinksOwn(s, i);
    if !s.created[i].phase.previous.Genesis? {
      var n: nat :| n < i && SameTenant(s, n, i) && s.created[n].row.integrity == Some(s.created[i].phase.previous);
      k := Some(n);
    }
  }

  lemma {:induction false} HashedLinksInto(s: Store, tenant: Option<int>, i: nat)
    requires StoreInv(s) && IsHashed(s, i) && s.created[i].row.tenant == tenant
    ensures CarriesItsHash(s.created[i].row) && LinksInto(HashedFor(s, tenant), s.created[i].row)
  {
    var k := LinkIsHashedRow(s, i);
    if k.Some? {
      HashedForAreRows(s, tenant);
      assert s.created[k.value].row in HashedFor(s, tenant);
    }
  }

  lemma {:induction false} HashedAreWellLinked(s: Store, tenant: Option<int>)
    requires StoreInv(s)
    ensures WellLinked(HashedFor(s, tenant))
  {
    HashedForAreRows(s, tenant);
    var rows := HashedFor(s, tenant);
    forall r | r in rows ensures CarriesItsHash(r) && LinksInto(rows, r) {
      HashedLinksInto(s, tenant, r.id - s.firstId);
    }
  }

  lemma {:induction false} SeenIsNotLinkedPast(s: Store, ops: seq<Op>, tenant: Option<int>, k: nat, i: nat)
    requires IsLegacy(s) && k < i && BothHashed(Run(s, ops), tenant, k, i) && Saw(s, ops, k, i)
    ensures var r := Run(s, ops).created[i].row;
            r.previous.Some? && !OlderThan(r.previous.value, Run(s, ops).created[k].row.id)
  {
    RunKeepsStoreInv(s, ops);
    RunKeepsPair(s, ops, k, i);
    assert IsSealed(Run(s, ops).created[i]);
  }

  lemma {:induction false} PlaceOfHashed(s: Store, tenant: Option<int>, j: nat) returns (i: nat)
    requires StoreInv(s) && j < |HashedFor(s, tenant)|
    ensures IsHashed(s, i) && s.created[i].row == HashedFor(s, tenant)[j] && s.created[i].row.tenant == tenant
    ensures s.created[i].row.id == s.firstId + i
  {
    HashedForAreRows(s, tenant);
    assert HashedFor(s, tenant)[j] in HashedFor(s, tenant);
    i := HashedFor(s, tenant)[j].id - s.firstId;
  }

  /** In turn, a hashed row links past no other. */
  lemma {:induction false} InTurnLinksPastNone(s: Store, ops: seq<Op>, tenant: Option<int>, i: nat, j: nat)
    requires IsLegacy(s) && InTurn(s, ops, tenant) && StoreInv(Run(s, ops))
    ensures !LinksPast(HashedFor(Run(s, ops), tenant), i, j)
  {
    var t := Run(s, ops);
    var rows := HashedFor(t, tenant);
    if i < j < |rows| {
      var k := PlaceOfHashed(t, tenant, i);
      var n := PlaceOfHashed(t, tenant, j);
      HashedForAreRows(t, tenant);
      assert rows[i].id < rows[j].id;
      assert BothHashed(t, tenant, k, n);
      SeenIsNotLinkedPast(s, ops, tenant, k, n);
    }
  }

  /** Behind a hashed row that was not seen, some hashed row links past it. */
  lemma {:induction false} UnseenIsLinkedPast(s: Store, ops: seq<Op>, tenant: Option<int>, k: nat, i: nat)
    returns (p: nat)
    requires IsLegacy(s) && k < i && BothHashed(Run(s, ops), tenant, k, i) && !Saw(s, ops, k, i)
    ensures k < p && BothHashed(Run(s, ops), tenant, k, p)
    ensures var r := Run(s, ops).created[p].row;
            r.previous.Some? && OlderThan(r.previous.value, Run(s, ops).created[k].row.id)
    decreases i
  {
    var t := Run(s, ops);
    RunKeepsStoreInv(s, ops);
    RunKeepsPair(s, ops, k, i);
    assert IsSealed(t.created[i]);
    p := i;
    if !OlderThan(t.created[i].phase.previous, t.created[k].row.id) {
      var q: nat :| k < q < i && IsHashed(t, q) && SameTenant(t, q, i) && !Saw(s, ops, k, q);
      p := UnseenIsLinkedPast(s, ops, tenant, k, q);
    }
  }

  lemma {:induction false} PlaceIn(rows: seq<LogRow>, r: LogRow) returns (i: nat)
    requires r in rows
    ensures i < |rows| && rows[i] == r
  {
    i :| 0 <= i < |rows| && rows[i] == r;
  }

  lemma {:induction false} SmallerIdInFront(rows: seq<LogRow>, i: nat, j: nat)
    requires Increasing(rows) && i < |rows| && j < |rows| && rows[i].id < rows[j].id
    ensures i < j
  {
  }

  lemma {:induction false} OutOfTurnLinksPast(s: Store, ops: seq<Op>, tenant: Option<int>)
    requires IsLegacy(s) && !InTurn(s, ops, tenant)
    ensures exists i: nat, j: nat :: LinksPast(HashedFor(Run(s, ops), tenant), i, j)
  {
    var t := Run(s, ops);
    var k: nat, i: nat :| k < i && BothHashed(t, tenant, k, i) && !Saw(s, ops, k, i);
    var p := UnseenIsLinkedPast(s, ops, tenant, k, i);
    RunKeepsStoreInv(s, ops);
    HashedForAreRows(t, tenant);
    var rows := HashedFor(t, tenant);
    var front := PlaceIn(rows, t.created[k].row);
    var back := PlaceIn(rows, t.created[p].row);
    SmallerIdInFront(rows, front, back);
    assert LinksPast(rows, front, back);
  }

  /**
   After any run of interleaved creations, finished, crashed or under way, a tenant's hashed rows are a chain if and
   only if each of them looked up when those in front of it were hashed already.
   */
  lemma {:induction false} HashedRowsChainIff(s: Store, ops: seq<Op>, tenant: Option<int>)
    requires IsLegacy(s)
    ensures Chained(Blocks(HashedFor(Run(s, ops), tenant))) <==> InTurn(s, ops, tenant)
  {
    RunKeepsStoreInv(s, ops);
    HashedAreWellLinked(Run(s, ops), tenant);
    ChainedIffNoneLinksPast(HashedFor(Run(s, ops), tenant));
    if InTurn(s, ops, tenant) {
      forall i: nat, j: nat ensures !LinksPast(HashedFor(Run(s, ops), tenant), i, j) {
        InTurnLinksPastNone(s, ops, tenant, i, j);
      }
    } else {
      OutOfTurnLinksPast(s, ops, tenant);
    }
  }

  // ---------------------------------------------------------------- out of turn for good

  lemma {:induction false} UnseenStays(s: Store, ops: seq<Op>, tenant: Option<int>, k: nat, i: nat)
    requires IsLegacy(s) && ops != [] && k < i && BothHashed(Run(s, ops[..|ops| - 1]), tenant, k, i)
    requires !Saw(s, ops[..|ops| - 1], k, i)
    ensures BothHashed(Run(s, ops), tenant, k, i) && !Saw(s, ops, k, i)
  {
    var t := Run(s, ops[..|ops| - 1]);
    RunKeepsStoreInv(s, ops[..|ops| - 1]);
    StepKeepsCreation(t, ops[|ops| - 1], k);
    StepKeepsCreation(t, ops[|ops| - 1], i);
    assert IsSealed(t.created[i]);
    SawIsSettled(s, ops, k, i);
  }

  /** What was out of turn once stays so, whatever follows. */
  lemma {:induction false} OutOfTurnIsFinal(s: Store, ops: seq<Op>, more: seq<Op>, tenant: Option<int>)
    requires IsLegacy(s) && !InTurn(s, ops, tenant)
    ensures !InTurn(s, ops + more, tenant)
  {
    if more == [] {
      assert ops + more == ops;
    } else {
      var all, n := ops + more, |ops + more| - 1;
      OutOfTurnIsFinal(s, ops, more[..|more| - 1], tenant);
      assert all[..n] == ops + more[..|more| - 1];
      var k: nat, i: nat :|
        k < i && BothHashed(Run(s, all[..n]), tenant, k, i) && !Saw(s, all[..n], k, i);
      UnseenStays(s, all, tenant, k, i);
    }
  }

  // ---------------------------------------------------------------- only the row directly in front matters

  lemma {:induction false} SawIsTransitive(s: Store, ops: seq<Op>, k: nat, m: nat, i: nat)
    requires IsLegacy(s) && Saw(s, ops, k, m) && Saw(s, ops, m, i)
    ensures Saw(s, ops, k, i)
  {
    var before := ops[..|ops| - 1];
    RunKeepsStoreInv(s, before);
    if Saw(s, before, m, i) { SeenIsHashed(s, before, m, i); }
    assert IsHashed(Run(s, before), m) && IsSealed(Run(s, before).created[m]);
    SawIsSettled(s, ops, k, m);
    SeenIsHashed(s, before, k, m);
    if Saw(s, before, m, i) { SawIsTransitive(s, before, k, m, i); }
  }

  /** Row k is the tenant's last hashed row in front of row i. */
  predicate AreNeighbours(s: Store, tenant: Option<int>, k: nat, i: nat) {
    k < i && BothHashed(s, tenant, k, i) && forall m: nat :: k < m < i ==> !BothHashed(s, tenant, m, i)
  }

  /** Every hashed row of the tenant saw the hashed row in front of it. */
  ghost predicate NeighboursSaw(s: Store, ops: seq<Op>, tenant: Option<int>) {
    forall k: nat, i: nat :: AreNeighbours(Run(s, ops), tenant, k, i) ==> Saw(s, ops, k, i)
  }

  lemma {:induction false} NeighboursSuffice(s: Store, ops: seq<Op>, tenant: Option<int>, k: nat, i: nat)
    requires IsLegacy(s) && k < i && BothHashed(Run(s, ops), tenant, k, i)
    requires NeighboursSaw(s, ops, tenant)
    ensures Saw(s, ops, k, i)
    decreases i - k
  {
    if m: nat :| k < m < i && BothHashed(Run(s, ops), tenant, m, i) {
      assert BothHashed(Run(s, ops), tenant, k, m);
      NeighboursSuffice(s, ops, tenant, k, m);
      NeighboursSuffice(s, ops, tenant, m, i);
      SawIsTransitive(s, ops, k, m, i);
    } else {
      assert AreNeighbours(Run(s, ops), tenant, k, i);
    }
  }

  lemma {:induction false} InTurnIffNeighboursSaw(s: Store, ops: seq<Op>, tenant: Option<int>)
    requires IsLegacy(s)
    ensures InTurn(s, ops, tenant) <==> NeighboursSaw(s, ops, tenant)
  {
    if NeighboursSaw(s, ops, tenant) {
      forall k: nat, i: nat | k < i && BothHashed(Run(s, ops), tenant, k, i) ensures Saw(s, ops, k, i) {
        NeighboursSuffice(s, ops, tenant, k, i);
      }
    } else {
      var k: nat, i: nat :| AreNeighbours(Run(s, ops), tenant, k, i) && !Saw(s, ops, k, i);
      assert k < i && BothHashed(Run(s, ops), tenant, k, i);
      assert !InTurn(s, ops, tenant);
    }
  }
}
