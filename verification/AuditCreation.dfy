/**
 Creation of audit blocks (verify_audit.py): an insert takes the next id, a first commit makes the row visible
 without hashes, a look-up reads the tenant's newest earlier hash, and a second commit fills both hash columns in.
 Creations of several blocks may interleave between any two of these steps.
 */
module AuditCreation {
  import opened Options
  import opened HashChain
  import opened AuditLog

  datatype Entry = Entry(
    tenant: Option<int>, query: Option<string>, response: Option<string>, allowed: Option<bool>,
    createdAt: string, riskLevel: Option<string>, approvalStatus: Option<string>)

  /** How far a creation is; after the look-up it holds the hash that it found. */
  datatype Phase = Inserted | RolledBack | Committed | LookedUp(previous: Digest<Fields>)

  datatype Creation = Creation(row: LogRow, phase: Phase)

  /** The rows that predate the hash chain, and the creations since then in id order, from `firstId` on. */
  datatype Store = Store(legacy: seq<LogRow>, firstId: int, created: seq<Creation>)

  /** The steps of a creation, which is named by its place among the creations. */
  datatype Op = Insert(entry: Entry) | RollBack(i: nat) | Commit(i: nat) | LookUp(i: nat) | Finish(i: nat)

  function NewRow(id: int, e: Entry): LogRow {
    LogRow(id, e.tenant, e.query, e.response, e.allowed, e.createdAt, e.riskLevel, e.approvalStatus, None, None)
  }

  /** The rows that other transactions can see. */
  function Visible(created: seq<Creation>): seq<LogRow> {
    if created == [] then []
    else
      var before, last := Visible(created[..|created| - 1]), created[|created| - 1];
      if last.phase.Committed? || last.phase.LookedUp? then before + [last.row] else before
  }

  /** What a query on audit_logs reads, in id order. */
  function Table(s: Store): seq<LogRow> { s.legacy + Visible(s.created) }

  /** The newest hash among the tenant's rows with a smaller id, or the genesis value. */
  function PreviousHash(rows: seq<LogRow>, id: int, tenant: Option<int>): Digest<Fields> {
    if rows == [] then Genesis
    else
      var last := rows[|rows| - 1];
      if last.id < id && last.integrity.Some? && last.tenant == tenant then last.integrity.value
      else PreviousHash(rows[..|rows| - 1], id, tenant)
  }

  function WithHashes(r: LogRow, previous: Digest<Fields>): LogRow {
    r.(previous := Some(previous), integrity := Some(RecordHash(r, previous)))
  }

  function FoundNow(s: Store, r: LogRow): Digest<Fields> { PreviousHash(Table(s), r.id, r.tenant) }

  /** The step comes next in its creation. */
  predicate IsNext(s: Store, op: Op) {
    match op
    case Insert(_) => true
    case RollBack(i) => i < |s.created| && s.created[i].phase.Inserted?
    case Commit(i) => i < |s.created| && s.created[i].phase.Inserted?
    case LookUp(i) => i < |s.created| && s.created[i].phase.Committed?
    case Finish(i) => i < |s.created| && s.created[i].phase.LookedUp?
  }

  function After(c: Creation, s: Store, op: Op): Creation {
    match op
    case Insert(_) => c
    case RollBack(_) => c.(phase := RolledBack)
    case Commit(_) => c.(phase := Committed)
    case LookUp(_) => c.(phase := LookedUp(FoundNow(s, c.row)))
    case Finish(_) => if c.phase.LookedUp? then c.(row := WithHashes(c.row, c.phase.previous)) else c
  }

  function Step(s: Store, op: Op): Store {
    if !IsNext(s, op) then s
    else if op.Insert? then s.(created := s.created + [Creation(NewRow(s.firstId + |s.created|, op.entry), Inserted)])
    else s.(created := s.created[op.i := After(s.created[op.i], s, op)])
  }

  function Run(s: Store, ops: seq<Op>): Store {
    if ops == [] then s else Step(Run(s, ops[..|ops| - 1]), ops[|ops| - 1])
  }

  predicate Increasing(rows: seq<LogRow>) { forall i, j :: 0 <= i < j < |rows| ==> rows[i].id < rows[j].id }

  predicate LegacyRows(rows: seq<LogRow>, firstId: int) {
    && Increasing(rows)
    && forall i :: 0 <= i < |rows| ==> rows[i].id < firstId && rows[i].integrity.None? && rows[i].previous.None?
  }

  /** Before the chain: rows without hashes, in id order. */
  predicate IsLegacy(s: Store) { s.created == [] && LegacyRows(s.legacy, s.firstId) }

  // ---------------------------------------------------------------- the program's steps

  class AuditStore {
    const legacy: seq<LogRow>
    const firstId: int
    var created: seq<Creation>

    ghost function View(): Store
      reads this
    {
      Store(legacy, firstId, created)
    }

    constructor (legacy: seq<LogRow>, nextId: int)
      ensures View() == Store(legacy, nextId, [])
    {
      this.legacy, firstId, created := legacy, nextId, [];
    }

    method InsertRow(e: Entry) returns (i: nat)
      modifies this
      ensures View() == Step(old(View()), Insert(e))
      ensures i < |created| && created[i].row.id == firstId + i && created[i].phase == Inserted
    {
      i := |created|;
      created := created + [Creation(NewRow(firstId + i, e), Inserted)];
    }

    /** The end of the inserting transaction. */
    method EndInsert(i: nat, success: bool)
      requires i < |created| && created[i].phase == Inserted
      modifies this
      ensures View() == Step(old(View()), if success then Commit(i) else RollBack(i))
    {
      created := created[i := created[i].(phase := if success then Committed else RolledBack)];
    }

    /** The query for the newest hash before the row, newest row first. */
    method LookUpPrevious(i: nat) returns (previous: Digest<Fields>)
      requires i < |created| && created[i].phase == Committed
      modifies this
      ensures View() == Step(old(View()), LookUp(i)) && created[i].phase == LookedUp(previous)
    {
      var r, rows := created[i].row, legacy + Visible(created);
      var k := |rows|;
      assert rows[..k] == rows;
      while k > 0 && !(rows[k - 1].id < r.id && rows[k - 1].integrity.Some? && rows[k - 1].tenant == r.tenant)
        invariant 0 <= k <= |rows|
        invariant PreviousHash(rows[..k], r.id, r.tenant) == PreviousHash(rows, r.id, r.tenant)
      {
        assert rows[..k][..k - 1] == rows[..k - 1];
        k := k - 1;
      }
      assert k > 0 ==> rows[..k][k - 1] == rows[k - 1];
      previous := if k > 0 then rows[k - 1].integrity.value else Genesis;
      assert previous == FoundNow(View(), r);
      created := created[i := created[i].(phase := LookedUp(previous))];
    }

    /** The second commit writes the hash that the look-up found, however old it is by now. */
    method FinishRow(i: nat, previous: Digest<Fields>)
      requires i < |created| && created[i].phase == LookedUp(previous)
      modifies this
      ensures View() == Step(old(View()), Finish(i))
    {
      created := created[i := created[i].(row := WithHashes(created[i].row, previous))];
    }
  }

  // ---------------------------------------------------------------- what every run keeps

  predicate IsHashed(s: Store, k: nat) { k < |s.created| && s.created[k].row.integrity.Some? }

  predicate SameTenant(s: Store, k: nat, i: nat)
    requires k < |s.created| && i < |s.created|
  {
    s.created[k].row.tenant == s.created[i].row.tenant
  }

  /**
   Only a creation that has looked up can be hashed, and then it carries the hash of its fields and of what it
   found.
   */
  predicate IsSealed(c: Creation) {
    && (c.row.integrity.None? <==> c.row.previous.None?)
    && (c.row.integrity.Some? ==>
          && c.phase.LookedUp? && c.row.previous == Some(c.phase.previous)
          && c.row.integrity.value == RecordHash(c.row, c.phase.previous))
  }

  /** What was found is the genesis value or the hash of an earlier row of the same tenant. */
  ghost predicate LinksOwn(s: Store, i: nat)
    requires i < |s.created|
  {
    s.created[i].phase.LookedUp? && !s.created[i].phase.previous.Genesis? ==>
      exists k: nat :: k < i && SameTenant(s, k, i) && s.created[k].row.integrity == Some(s.created[i].phase.previous)
  }

  ghost predicate StoreInv(s: Store) {
    && LegacyRows(s.legacy, s.firstId)
    && forall i: nat :: i < |s.created| ==>
         s.created[i].row.id == s.firstId + i && IsSealed(s.created[i]) && LinksOwn(s, i)
  }

  /** A step keeps places, tenants, what was found, and hashes. */
  lemma {:induction false} StepKeepsCreation(s: Store, op: Op, i: nat)
    requires StoreInv(s) && i < |s.created|
    ensures var t := Step(s, op);
            && i < |t.created| && t.created[i].row.id == s.firstId + i == s.created[i].row.id
            && t.created[i].row.tenant == s.created[i].row.tenant && IsSealed(t.created[i])
            && (s.created[i].phase.LookedUp? || s.created[i].phase.RolledBack? ==>
                  t.created[i].phase == s.created[i].phase)
            && (s.created[i].row.integrity.Some? ==> t.created[i].row.integrity == s.created[i].row.integrity)
  {
  }

  lemma {:induction false} VisibleRow(created: seq<Creation>, r: LogRow) returns (i: nat)
    requires r in Visible(created)
    ensures i < |created| && created[i].row == r && (created[i].phase.Committed? || created[i].phase.LookedUp?)
  {
    i := |created| - 1;
    if created[i].row != r || !(created[i].phase.Committed? || created[i].phase.LookedUp?) {
      i := VisibleRow(created[..|created| - 1], r);
    }
  }

  lemma {:induction false} RowIsVisible(created: seq<Creation>, i: nat)
    requires i < |created| && (created[i].phase.Committed? || created[i].phase.LookedUp?)
    ensures created[i].row in Visible(created)
  {
    if i < |created| - 1 { RowIsVisible(created[..|created| - 1], i); }
  }

  predicate Answers(r: LogRow, id: int, tenant: Option<int>) {
    r.id < id && r.integrity.Some? && r.tenant == tenant
  }

  /** The look-up query answers with the newest row that meets its condition. */
  lemma {:induction false} PreviousHashIsNewest(rows: seq<LogRow>, id: int, tenant: Option<int>)
    returns (n: Option<nat>)
    ensures n.None? ==> PreviousHash(rows, id, tenant) == Genesis
    ensures n.Some? ==> n.value < |rows| && Answers(rows[n.value], id, tenant)
                        && rows[n.value].integrity == Some(PreviousHash(rows, id, tenant))
    ensures forall i: nat :: i < |rows| && Answers(rows[i], id, tenant) ==> n.Some? && i <= n.value
  {
    n := None;
    if rows != [] {
      var last := |rows| - 1;
      if Answers(rows[last], id, tenant) {
        n := Some(last);
      } else {
        n := PreviousHashIsNewest(rows[..last], id, tenant);
      }
    }
  }

  lemma {:induction false} VisibleIncreases(created: seq<Creation>, firstId: int)
    requires forall i: nat :: i < |created| ==> created[i].row.id == firstId + i
    ensures Increasing(Visible(created))
    ensures forall r :: r in Visible(created) ==> firstId <= r.id < firstId + |created|
  {
    if created != [] {
      VisibleIncreases(created[..|created| - 1], firstId);
      var before := Visible(created[..|created| - 1]);
      forall i | 0 <= i < |before| ensures before[i].id < created[|created| - 1].row.id { assert before[i] in before; }
    }
  }

  lemma {:induction false} TableIncreases(s: Store)
    requires StoreInv(s)
    ensures Increasing(Table(s))
  {
    VisibleIncreases(s.created, s.firstId);
    var rows := Visible(s.created);
    forall i | 0 <= i < |rows| ensures s.firstId <= rows[i].id { assert rows[i] in rows; }
  }

  lemma {:induction false} PlaceInTable(s: Store, k: nat) returns (n: nat)
    requires StoreInv(s) && IsHashed(s, k)
    ensures n < |Table(s)| && Table(s)[n] == s.created[k].row
  {
    assert IsSealed(s.created[k]);
    RowIsVisible(s.created, k);
    assert s.created[k].row in Table(s);
    n :| 0 <= n < |Table(s)| && Table(s)[n] == s.created[k].row;
  }

  lemma {:induction false} HashedInTable(s: Store, n: nat) returns (k: nat)
    requires StoreInv(s) && n < |Table(s)| && Table(s)[n].integrity.Some?
    ensures k < |s.created| && s.created[k].row == Table(s)[n] && s.created[k].row.id == s.firstId + k
  {
    if n < |s.legacy| { assert false; }
    assert Table(s)[n] in Visible(s.created);
    k := VisibleRow(s.created, Table(s)[n]);
  }

  /** What creation i would find now: the genesis value, or the hash of creation p, with no hashed one in between. */
  lemma {:induction false} FoundIsNewest(s: Store, i: nat) returns (p: Option<nat>)
    requires StoreInv(s) && i < |s.created|
    ensures p.None? ==> FoundNow(s, s.created[i].row) == Genesis
    ensures p.Some? ==> p.value < i && SameTenant(s, p.value, i)
                        && s.created[p.value].row.integrity == Some(FoundNow(s, s.created[i].row))
    ensures forall k: nat :: k < i && SameTenant(s, k, i) && IsHashed(s, k) ==> p.Some? && k <= p.value
  {
    TableIncreases(s);
    var r := s.created[i].row;
    var n := PreviousHashIsNewest(Table(s), r.id, r.tenant);
    p := None;
    if n.Some? {
      var place := HashedInTable(s, n.value);
      p := Some(place);
    }
    forall k: nat | k < i && SameTenant(s, k, i) && IsHashed(s, k) ensures p.Some? && k <= p.value {
      var m := PlaceInTable(s, k);
      assert Answers(Table(s)[m], r.id, r.tenant);
    }
  }

  lemma {:induction false} LookUpLinksOwn(s: Store, i: nat)
    requires StoreInv(s) && IsNext(s, LookUp(i))
    ensures LinksOwn(Step(s, LookUp(i)), i)
  {
    var t := Step(s, LookUp(i));
    var p := FoundIsNewest(s, i);
    if p.Some? { assert SameTenant(t, p.value, i) && t.created[p.value] == s.created[p.value]; }
  }

  lemma {:induction false} StepKeepsLink(s: Store, op: Op, i: nat)
    requires StoreInv(s) && i < |s.created|
    ensures LinksOwn(Step(s, op), i)
  {
    var t := Step(s, op);
    if s.created[i].phase.LookedUp? {
      StepKeepsCreation(s, op, i);
      if !s.created[i].phase.previous.Genesis? {
        var k: nat :| k < i && SameTenant(s, k, i)
          && s.created[k].row.integrity == Some(s.created[i].phase.previous);
        StepKeepsCreation(s, op, k);
        assert SameTenant(t, k, i);
      }
    } else if op == LookUp(i) && IsNext(s, op) {
      LookUpLinksOwn(s, i);
    }
  }

  lemma {:induction false} StepKeepsStoreInv(s: Store, op: Op)
    requires StoreInv(s)
    ensures StoreInv(Step(s, op))
  {
    var t := Step(s, op);
    forall i: nat | i < |t.created|
      ensures t.created[i].row.id == t.firstId + i && IsSealed(t.created[i]) && LinksOwn(t, i)
    {
      if i < |s.created| {
        StepKeepsCreation(s, op, i);
        StepKeepsLink(s, op, i);
      }
    }
  }

  /** Over every run: hashes are those of the row and of what it found, which is its own tenant's. */
  lemma {:induction false} RunKeepsStoreInv(s: Store, ops: seq<Op>)
    requires IsLegacy(s)
    ensures StoreInv(Run(s, ops)) && Run(s, ops).firstId == s.firstId && Run(s, ops).legacy == s.legacy
  {
    if ops != [] {
      RunKeepsStoreInv(s, ops[..|ops| - 1]);
      StepKeepsStoreInv(Run(s, ops[..|ops| - 1]), ops[|ops| - 1]);
    }
  }

  // ---------------------------------------------------------------- what the rows hold

  /** The entries inserted by a run, in order. */
  function Entries(ops: seq<Op>): seq<Entry> {
    if ops == [] then []
    else
      var before, last := Entries(ops[..|ops| - 1]), ops[|ops| - 1];
      if last.Insert? then before + [last.entry] else before
  }

  predicate Carries(r: LogRow, e: Entry) {
    && r.tenant == e.tenant && r.query == e.query && r.response == e.response && r.allowed == e.allowed
    && r.createdAt == e.createdAt && r.riskLevel == e.riskLevel && r.approvalStatus == e.approvalStatus
  }

  /** However creations interleave, the i-th inserted entry is in the row with the i-th id, column by column. */
  lemma {:induction false} RowsCarryTheirEntries(s: Store, ops: seq<Op>, i: nat)
    requires IsLegacy(s)
    ensures |Run(s, ops).created| == |Entries(ops)|
    ensures i < |Entries(ops)| ==>
              Run(s, ops).created[i].row.id == s.firstId + i && Carries(Run(s, ops).created[i].row, Entries(ops)[i])
  {
    if ops != [] {
      RowsCarryTheirEntries(s, ops[..|ops| - 1], i);
      RunKeepsStoreInv(s, ops[..|ops| - 1]);
    }
  }
}
