/**
 Reachable audit logs (verify_audit.py): what crossing creations, a crash and a rolled-back insert leave behind.
 */
module AuditRuns {
  import opened Options
  import opened HashChain
  import opened AuditLog
  import opened AuditCreation
  import opened AuditOrder
  import opened AuditVerdicts
  import opened AuditUnfiltered

  function EmptyLog(): Store { Store([], 1, []) }

  function Hashed(id: int, e: Entry, previous: Digest<Fields>): LogRow { WithHashes(NewRow(id, e), previous) }

  function Finished(id: int, e: Entry, previous: Digest<Fields>): Creation {
    Creation(Hashed(id, e, previous), LookedUp(previous))
  }

  lemma {:induction false} RunOneMore(s: Store, ops: seq<Op>, op: Op, next: seq<Op>)
    requires next == ops + [op]
    ensures Run(s, next) == Step(Run(s, ops), op)
    ensures forall tenant :: OneAtATime(s, next, tenant) <==>
              OneAtATime(s, ops, tenant) && (op.Insert? && op.entry.tenant == tenant ==> AtRest(Run(s, ops), tenant))
  {
    assert next[..|next| - 1] == ops;
  }

  lemma {:induction false} NoHashFound(rows: seq<LogRow>, id: int, tenant: Option<int>)
    requires forall i :: 0 <= i < |rows| ==> !Answers(rows[i], id, tenant)
    ensures PreviousHash(rows, id, tenant) == Genesis
  {
    if rows != [] { NoHashFound(rows[..|rows| - 1], id, tenant); }
  }

  lemma {:induction false} VisiblePair(c: Creation, d: Creation)
    requires c.phase.Committed? || c.phase.LookedUp?
    requires d.phase.Committed? || d.phase.LookedUp?
    ensures Visible([c, d]) == [c.row, d.row]
  {
    assert [c, d][..1] == [c] && [c][..0] == [];
    assert Visible([]) == [] && Visible([c]) == [c.row];
  }

  lemma {:induction false} LabelledPair(a: LogRow, b: LogRow, tenant: Option<int>)
    requires a.tenant == b.tenant == tenant
    ensures Labelled([a, b], tenant) == [a, b]
  {
    assert [a, b][..1] == [a] && [a][..0] == [];
    assert Labelled([], tenant) == [];
    assert Labelled([a], tenant) == [a];
  }

  // ---------------------------------------------------------------- two creations that cross

  function TwoCommitted(a: Entry, b: Entry): seq<Op> { [Insert(a), Insert(b), Commit(0), Commit(1)] }

  /** Both look up before either is finished; the second commits then come in insertion order. */
  function CrossedLookUps(a: Entry, b: Entry): seq<Op> {
    TwoCommitted(a, b) + [LookUp(0), LookUp(1), Finish(0), Finish(1)]
  }

  /** The later creation is finished before the earlier one looks up. */
  function CrossedCommits(a: Entry, b: Entry): seq<Op> {
    TwoCommitted(a, b) + [LookUp(1), Finish(1), LookUp(0), Finish(0)]
  }

  lemma {:induction false} AfterTwoCommitted(a: Entry, b: Entry)
    ensures Run(EmptyLog(), TwoCommitted(a, b))
         == Store([], 1, [Creation(NewRow(1, a), Committed), Creation(NewRow(2, b), Committed)])
  {
    var s, ops := EmptyLog(), TwoCommitted(a, b);
    RunOneMore(s, [], ops[0], ops[..1]);
    RunOneMore(s, ops[..1], ops[1], ops[..2]);
    RunOneMore(s, ops[..2], ops[2], ops[..3]);
    RunOneMore(s, ops[..3], ops[3], ops);
  }

  /** The next step of a run, with the state it leads to. */
  lemma {:induction false} Next(s: Store, ops: seq<Op>, t: Store, op: Op, u: Store)
    requires Run(s, ops) == t && Step(t, op) == u
    ensures Run(s, ops + [op]) == u
  {
    RunOneMore(s, ops, op, ops + [op]);
  }

  lemma {:induction false} FourMore<T>(ops: seq<T>, a: T, b: T, c: T, d: T)
    ensures ops + [a, b, c, d] == ops + [a] + [b] + [c] + [d]
  {
  }

  /** A look-up finds nothing as long as no row with a smaller id is hashed. */
  lemma {:induction false} LookUpOfTwo(c: Creation, d: Creation, r: LogRow)
    requires c.phase.Committed? || c.phase.LookedUp?
    requires d.phase.Committed? || d.phase.LookedUp?
    requires !Answers(c.row, r.id, r.tenant) && !Answers(d.row, r.id, r.tenant)
    ensures FoundNow(Store([], 1, [c, d]), r) == Genesis
  {
    VisiblePair(c, d);
    assert [] + Visible([c, d]) == [c.row, d.row];
    NoHashFound([c.row, d.row], r.id, r.tenant);
  }

  lemma {:induction false} AfterCrossedLookUps(a: Entry, b: Entry)
    ensures Run(EmptyLog(), CrossedLookUps(a, b)) == Store([], 1, [Finished(1, a, Genesis), Finished(2, b, Genesis)])
  {
    var s, ops := EmptyLog(), TwoCommitted(a, b);
    var r1, r2 := NewRow(1, a), NewRow(2, b);
    var c1, c2, l1, l2 := Creation(r1, Committed), Creation(r2, Committed),
                          Creation(r1, LookedUp(Genesis)), Creation(r2, LookedUp(Genesis));
    AfterTwoCommitted(a, b);
    LookUpOfTwo(c1, c2, r1);
    Next(s, ops, Store([], 1, [c1, c2]), LookUp(0), Store([], 1, [l1, c2]));
    LookUpOfTwo(l1, c2, r2);
    Next(s, ops + [LookUp(0)], Store([], 1, [l1, c2]), LookUp(1), Store([], 1, [l1, l2]));
    ops := ops + [LookUp(0)] + [LookUp(1)];
    Next(s, ops, Store([], 1, [l1, l2]), Finish(0), Store([], 1, [Finished(1, a, Genesis), l2]));
    Next(s, ops + [Finish(0)], Store([], 1, [Finished(1, a, Genesis), l2]), Finish(1),
         Store([], 1, [Finished(1, a, Genesis), Finished(2, b, Genesis)]));
    FourMore(TwoCommitted(a, b), LookUp(0), LookUp(1), Finish(0), Finish(1));
  }

  /** After the later creation alone is finished, as when the earlier one has crashed. */
  lemma {:induction false} AfterSecondFinished(a: Entry, b: Entry)
    ensures Run(EmptyLog(), TwoCommitted(a, b) + [LookUp(1)] + [Finish(1)])
         == Store([], 1, [Creation(NewRow(1, a), Committed), Finished(2, b, Genesis)])
  {
    var s, ops := EmptyLog(), TwoCommitted(a, b);
    var r1, r2 := NewRow(1, a), NewRow(2, b);
    var c1, c2, l2 := Creation(r1, Committed), Creation(r2, Committed), Creation(r2, LookedUp(Genesis));
    AfterTwoCommitted(a, b);
    LookUpOfTwo(c1, c2, r2);
    Next(s, ops, Store([], 1, [c1, c2]), LookUp(1), Store([], 1, [c1, l2]));
    Next(s, ops + [LookUp(1)], Store([], 1, [c1, l2]), Finish(1), Store([], 1, [c1, Finished(2, b, Genesis)]));
  }

  lemma {:induction false} AfterCrossedCommits(a: Entry, b: Entry)
    ensures Run(EmptyLog(), CrossedCommits(a, b)) == Store([], 1, [Finished(1, a, Genesis), Finished(2, b, Genesis)])
  {
    var s, ops := EmptyLog(), TwoCommitted(a, b) + [LookUp(1)] + [Finish(1)];
    var r1 := NewRow(1, a);
    var c1, l1, f2 := Creation(r1, Committed), Creation(r1, LookedUp(Genesis)), Finished(2, b, Genesis);
    AfterSecondFinished(a, b);
    LookUpOfTwo(c1, f2, r1);
    Next(s, ops, Store([], 1, [c1, f2]), LookUp(0), Store([], 1, [l1, f2]));
    Next(s, ops + [LookUp(0)], Store([], 1, [l1, f2]), Finish(0), Store([], 1, [Finished(1, a, Genesis), f2]));
    FourMore(TwoCommitted(a, b), LookUp(1), Finish(1), LookUp(0), Finish(0));
  }

  lemma {:induction false} TenantReadsPair(c: Creation, d: Creation, t: int)
    requires c.phase.Committed? || c.phase.LookedUp?
    requires d.phase.Committed? || d.phase.LookedUp?
    requires c.row.tenant == d.row.tenant == Some(t)
    ensures TenantRows(Table(Store([], 1, [c, d])), Some(t)) == [c.row, d.row]
  {
    VisiblePair(c, d);
    assert [] + Visible([c, d]) == [c.row, d.row];
    LabelledPair(c.row, d.row, Some(t));
  }

  /** Two rows that both link to the genesis value: the second one's link is reported as broken. */
  lemma {:induction false} TwoFirstRowsAreBroken(p: LogRow, q: LogRow, v: Verdict)
    requires p.integrity == Some(RecordHash(p, Genesis)) && p.previous == Some(Genesis)
    requires q.integrity == Some(RecordHash(q, Genesis)) && q.previous == Some(Genesis)
    requires IsVerdict(v, [p, q], false)
    ensures v == Invalid(1, q.id, BrokenLink)
  {
    var rows := [p, q];
    assert ChainStart(rows) == 0 && Active(rows) == rows;
    assert FaultAt(rows, 0, false).None?;
    assert FaultAt(rows, 1, false) == Some(BrokenLink);
  }

  /** Second commits in insertion order are not enough: two look-ups that come first leave a broken link, at rest. */
  lemma {:induction false} CrossedLookUpsBreakTheLog(a: Entry, b: Entry, t: int, v: Verdict)
    requires a.tenant == b.tenant == Some(t)
    requires IsVerdict(v, TenantRows(Table(Run(EmptyLog(), CrossedLookUps(a, b))), Some(t)), false)
    ensures AtRest(Run(EmptyLog(), CrossedLookUps(a, b)), Some(t)) && v == Invalid(1, 2, BrokenLink)
  {
    AfterCrossedLookUps(a, b);
    TenantReadsPair(Finished(1, a, Genesis), Finished(2, b, Genesis), t);
    TwoFirstRowsAreBroken(Hashed(1, a, Genesis), Hashed(2, b, Genesis), v);
  }

  /** Two creations of one tenant that commit crosswise. */
  lemma {:induction false} CrossedCommitsBreakTheLog(a: Entry, b: Entry, t: int, v: Verdict)
    requires a.tenant == b.tenant == Some(t)
    requires IsVerdict(v, TenantRows(Table(Run(EmptyLog(), CrossedCommits(a, b))), Some(t)), false)
    ensures AtRest(Run(EmptyLog(), CrossedCommits(a, b)), Some(t)) && v == Invalid(1, 2, BrokenLink)
  {
    AfterCrossedCommits(a, b);
    TenantReadsPair(Finished(1, a, Genesis), Finished(2, b, Genesis), t);
    TwoFirstRowsAreBroken(Hashed(1, a, Genesis), Hashed(2, b, Genesis), v);
  }

  /**
   The earlier creation has crashed: its row is taken for a legacy row, and the log is accepted with one row
   checked.
   */
  lemma {:induction false} UnfinishedFirstRowIsSkipped(a: Entry, b: Entry, t: int, v: Verdict)
    requires a.tenant == b.tenant == Some(t)
    requires var s := Run(EmptyLog(), TwoCommitted(a, b) + [LookUp(1)] + [Finish(1)]);
             IsVerdict(v, TenantRows(Table(s), Some(t)), false)
    ensures v == Valid(1, Some(b.createdAt))
  {
    var rows := [NewRow(1, a), Hashed(2, b, Genesis)];
    AfterSecondFinished(a, b);
    TenantReadsPair(Creation(rows[0], Committed), Finished(2, b, Genesis), t);
    assert ChainStart(rows[1..]) == 0 && ChainStart(rows) == 1;
    var active := Active(rows);
    assert active == [Hashed(2, b, Genesis)];
    assert FaultAt(active, 0, false).None?;
  }

  // ---------------------------------------------------------------- one block after the other

  /** All steps of creation i without any other in between. */
  function CreateBlock(i: nat, e: Entry): seq<Op> { [Insert(e), Commit(i), LookUp(i), Finish(i)] }

  /** The run leads to these creations, and every tenant has created one block at a time. */
  ghost predicate Reaches(s: Store, ops: seq<Op>, created: seq<Creation>) {
    Run(s, ops) == s.(created := created) && forall tenant :: OneAtATime(s, ops, tenant)
  }

  lemma {:induction false} ReachesNext(s: Store, ops: seq<Op>, c: seq<Creation>, op: Op, d: seq<Creation>)
    requires Reaches(s, ops, c) && Step(s.(created := c), op) == s.(created := d)
    requires op.Insert? ==> AtRest(s.(created := c), op.entry.tenant)
    ensures Reaches(s, ops + [op], d)
  {
    RunOneMore(s, ops, op, ops + [op]);
  }

  lemma {:induction false} BlockIsCreated(s: Store, ops: seq<Op>, c: seq<Creation>, e: Entry, d: Digest<Fields>)
    requires Reaches(s, ops, c) && AtRest(s.(created := c), e.tenant)
    requires d == FoundNow(s.(created := c + [Creation(NewRow(s.firstId + |c|, e), Committed)]),
        NewRow(s.firstId + |c|, e))
    ensures Reaches(s, ops + CreateBlock(|c|, e), c + [Finished(s.firstId + |c|, e, d)])
  {
    var i, r := |c|, NewRow(s.firstId + |c|, e);
    var c1, c2, c3 := c + [Creation(r, Inserted)], c + [Creation(r, Committed)], c + [Creation(r, LookedUp(d))];
    ReachesNext(s, ops, c, Insert(e), c1);
    assert c1[i := Creation(r, Committed)] == c2 && c2[i := Creation(r, LookedUp(d))] == c3;
    ReachesNext(s, ops + [Insert(e)], c1, Commit(i), c2);
    ReachesNext(s, ops + [Insert(e)] + [Commit(i)], c2, LookUp(i), c3);
    assert c3[i := Finished(s.firstId + i, e, d)] == c + [Finished(s.firstId + i, e, d)];
    ReachesNext(s, ops + [Insert(e)] + [Commit(i)] + [LookUp(i)], c3, Finish(i), c + [Finished(s.firstId + i, e, d)]);
    FourMore(ops, Insert(e), Commit(i), LookUp(i), Finish(i));
  }

  lemma {:induction false} FirstBlock(a: Entry)
    ensures Reaches(EmptyLog(), CreateBlock(0, a), [Finished(1, a, Genesis)])
  {
    var r := NewRow(1, a);
    assert Visible([Creation(r, Committed)]) == [r] by { assert [Creation(r, Committed)][..0] == []; }
    NoHashFound([r], 1, a.tenant);
    assert [] + [r] == [r];
    BlockIsCreated(EmptyLog(), [], [], a, Genesis);
    assert [] + CreateBlock(0, a) == CreateBlock(0, a);
  }

  function OneBlockEach(a: Entry, b: Entry): seq<Op> { CreateBlock(0, a) + CreateBlock(1, b) }

  lemma {:induction false} AfterOneBlockEach(a: Entry, b: Entry)
    requires a.tenant != b.tenant
    ensures Reaches(EmptyLog(), OneBlockEach(a, b), [Finished(1, a, Genesis), Finished(2, b, Genesis)])
  {
    var f1, c2 := Finished(1, a, Genesis), Creation(NewRow(2, b), Committed);
    FirstBlock(a);
    assert [f1] + [c2] == [f1, c2] && [f1] + [Finished(2, b, Genesis)] == [f1, Finished(2, b, Genesis)];
    LookUpOfTwo(f1, c2, NewRow(2, b));
    BlockIsCreated(EmptyLog(), CreateBlock(0, a), [f1], b, Genesis);
  }

  lemma {:induction false} OwnLogVerifies(a: Entry, b: Entry, t: int, v: Verdict)
    requires a.tenant != b.tenant
    requires IsVerdict(v, TenantRows(Table(Run(EmptyLog(), OneBlockEach(a, b))), Some(t)), false)
    ensures v.Valid?
  {
    AfterOneBlockEach(a, b);
    SerialisedLogVerifies(EmptyLog(), OneBlockEach(a, b), t, v);
  }

  /** Two tenants with one finished block each: each tenant's own log is accepted, the unfiltered check fails. */
  lemma {:induction false} OwnLogsVerifyTogetherTheyFail(
    a: Entry, b: Entry, t: int, u: int, own: Verdict, other: Verdict, all: Verdict)
    requires a.tenant == Some(t) && b.tenant == Some(u) && t != u
    requires var rows := Table(Run(EmptyLog(), OneBlockEach(a, b)));
             && IsVerdict(own, TenantRows(rows, Some(t)), false) && IsVerdict(other, TenantRows(rows, Some(u)), false)
             && IsVerdict(all, TenantRows(rows, None), true)
    ensures own.Valid? && other.Valid? && all.Invalid?
  {
    OwnLogVerifies(a, b, t, own);
    OwnLogVerifies(a, b, u, other);
    AfterOneBlockEach(a, b);
    TwoTenantsFailUnfiltered(EmptyLog(), OneBlockEach(a, b), all, 0, 1);
  }

  /** A block, an insert that is rolled back, and another block. */
  function AroundRollBack(a: Entry, b: Entry, c: Entry): seq<Op> {
    CreateBlock(0, a) + [Insert(b)] + [RollBack(1)] + CreateBlock(2, c)
  }

  lemma {:induction false} RolledBackInsert(s: Store, ops: seq<Op>, c: seq<Creation>, e: Entry)
    requires Reaches(s, ops, c) && AtRest(s.(created := c), e.tenant)
    ensures Reaches(s, ops + [Insert(e)] + [RollBack(|c|)], c + [Creation(NewRow(s.firstId + |c|, e), RolledBack)])
  {
    var r := NewRow(s.firstId + |c|, e);
    var c1, c2 := c + [Creation(r, Inserted)], c + [Creation(r, RolledBack)];
    assert c1[|c| := Creation(r, RolledBack)] == c2;
    ReachesNext(s, ops, c, Insert(e), c1);
    ReachesNext(s, ops + [Insert(e)], c1, RollBack(|c|), c2);
  }

  lemma {:induction false} AfterRollBack(a: Entry, b: Entry, c: Entry) returns (d: Digest<Fields>)
    ensures Reaches(EmptyLog(), AroundRollBack(a, b, c),
                    [Finished(1, a, Genesis), Creation(NewRow(2, b), RolledBack), Finished(3, c, d)])
  {
    var f1, b2 := Finished(1, a, Genesis), Creation(NewRow(2, b), RolledBack);
    FirstBlock(a);
    RolledBackInsert(EmptyLog(), CreateBlock(0, a), [f1], b);
    assert [f1] + [b2] == [f1, b2];
    d := FoundNow(Store([], 1, [f1, b2] + [Creation(NewRow(3, c), Committed)]), NewRow(3, c));
    BlockIsCreated(EmptyLog(), CreateBlock(0, a) + [Insert(b)] + [RollBack(1)], [f1, b2], c, d);
    assert [f1, b2] + [Finished(3, c, d)] == [f1, b2, Finished(3, c, d)];
  }

  lemma {:induction false} VisibleAroundRollBack(c: Creation, r: LogRow, d: Creation)
    requires c.phase.LookedUp? && d.phase.LookedUp?
    ensures Table(Store([], 1, [c, Creation(r, RolledBack), d])) == [c.row, d.row]
  {
    var all := [c, Creation(r, RolledBack), d];
    assert all[..2] == [c, Creation(r, RolledBack)] && all[..2][..1] == [c] && [c][..0] == [];
    assert Visible([]) == [] && Visible([c]) == [c.row];
    assert Visible(all[..2]) == [c.row];
  }

  lemma {:induction false} GapIsMissingRecord(p: LogRow, q: LogRow, v: Verdict)
    requires p.integrity == Some(RecordHash(p, Genesis)) && p.previous == Some(Genesis)
    requires q.integrity.Some? && q.previous.Some? && q.id != p.id + 1
    requires IsVerdict(v, [p, q], true)
    ensures v == Invalid(1, q.id, MissingRecord(p.id, q.id))
  {
    var rows := [p, q];
    assert ChainStart(rows) == 0 && Active(rows) == rows;
    assert FaultAt(rows, 0, true).None?;
    assert FaultAt(rows, 1, true) == Some(MissingRecord(p.id, q.id));
  }

  /** An insert that was rolled back: the tenant's log is accepted, but the unfiltered check misses a record. */
  lemma {:induction false} RolledBackInsertLooksDeleted(
    a: Entry, b: Entry, c: Entry, t: int, own: Verdict, all: Verdict)
    requires a.tenant == b.tenant == c.tenant == Some(t)
    requires var rows := Table(Run(EmptyLog(), AroundRollBack(a, b, c)));
             IsVerdict(own, TenantRows(rows, Some(t)), false) && IsVerdict(all, TenantRows(rows, None), true)
    ensures own.Valid? && all == Invalid(1, 3, MissingRecord(1, 3))
  {
    var d := AfterRollBack(a, b, c);
    SerialisedLogVerifies(EmptyLog(), AroundRollBack(a, b, c), t, own);
    VisibleAroundRollBack(Finished(1, a, Genesis), NewRow(2, b), Finished(3, c, d));
    GapIsMissingRecord(Hashed(1, a, Genesis), Hashed(3, c, d), all);
  }
}
