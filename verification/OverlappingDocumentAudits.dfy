/**
 Document audits created at the same time (document_processing/auditor.py): each creation looks up its predecessor,
 inserts its row, which takes the next id, and commits, in any interleaving with the others.
 */
module OverlappingDocumentAudits {
  import opened Options
  import opened HashChain
  import opened DocumentAudit

  datatype Phase = Inserted | Committed | RolledBack

  datatype Entry = Entry(job: nat, row: Row, phase: Phase)

  datatype Found = Found(fields: Fields, previous: Digest<Fields>)

  /** The inserted rows in id order, and what each creation has found. */
  datatype Log = Log(entries: seq<Entry>, found: map<nat, Found>)

  datatype Op = LookUp(job: nat, fields: Fields) | Insert(job: nat) | Commit(i: nat) | RollBack(i: nat)

  const EMPTY_LOG := Log([], map[])

  /** The rows that other transactions can see. */
  function Visible(entries: seq<Entry>): seq<Row> {
    if entries == [] then []
    else
      var before, last := Visible(entries[..|entries| - 1]), entries[|entries| - 1];
      if last.phase.Committed? then before + [last.row] else before
  }

  function Query(entries: seq<Entry>, doc: int, tenant: Option<int>): seq<Row> {
    Matching(Visible(entries), doc, tenant)
  }

  predicate HasInserted(s: Log, job: nat) { exists i :: 0 <= i < |s.entries| && s.entries[i].job == job }

  predicate IsNext(s: Log, op: Op) {
    match op
    case LookUp(job, _) => job !in s.found
    case Insert(job) => job in s.found && !HasInserted(s, job)
    case Commit(i) => i < |s.entries| && s.entries[i].phase.Inserted?
    case RollBack(i) => i < |s.entries| && s.entries[i].phase.Inserted?
  }

  function Step(s: Log, op: Op): Log {
    if !IsNext(s, op) then s
    else
      match op
      case LookUp(job, f) => s.(found := s.found[job := Found(f, Head(Query(s.entries, f.documentId, f.tenant)))])
      case Insert(job) =>
        s.(entries := s.entries + [Entry(job, RowOf(s.found[job].fields, s.found[job].previous), Inserted)])
      case Commit(i) => s.(entries := s.entries[i := s.entries[i].(phase := Committed)])
      case RollBack(i) => s.(entries := s.entries[i := s.entries[i].(phase := RolledBack)])
  }

  function Run(ops: seq<Op>): Log {
    if ops == [] then EMPTY_LOG else Step(Run(ops[..|ops| - 1]), ops[|ops| - 1])
  }

  predicate IsCommitted(s: Log, k: nat) { k < |s.entries| && s.entries[k].phase.Committed? }

  /** Row k was committed already when the creation looked up. */
  predicate Saw(ops: seq<Op>, k: nat, job: nat) {
    ops != []
    && (var before, op := ops[..|ops| - 1], ops[|ops| - 1];
        Saw(before, k, job) || (op.LookUp? && op.job == job && IsNext(Run(before), op) && IsCommitted(Run(before), k)))
  }

  // ---------------------------------------------------------------- what every run keeps

  predicate EntryInv(s: Log, i: nat)
    requires i < |s.entries|
  {
    var e := s.entries[i];
    e.job in s.found && e.row == RowOf(s.found[e.job].fields, s.found[e.job].previous)
  }

  predicate Inv(s: Log) { forall i: nat :: i < |s.entries| ==> EntryInv(s, i) }

  lemma {:induction false} StepKeepsEntry(s: Log, op: Op, i: nat)
    requires i < |s.entries|
    ensures var t := Step(s, op);
            && i < |t.entries| && t.entries[i].job == s.entries[i].job && t.entries[i].row == s.entries[i].row
            && (s.entries[i].phase.Committed? ==> t.entries[i].phase.Committed?)
  {
  }

  lemma {:induction false} StepKeepsFound(s: Log, op: Op, job: nat)
    requires job in s.found
    ensures job in Step(s, op).found && Step(s, op).found[job] == s.found[job]
  {
  }

  lemma {:induction false} RunKeepsInv(ops: seq<Op>)
    ensures Inv(Run(ops))
  {
    if ops != [] {
      var s, op := Run(ops[..|ops| - 1]), ops[|ops| - 1];
      RunKeepsInv(ops[..|ops| - 1]);
      forall i: nat | i < |Run(ops).entries| ensures EntryInv(Run(ops), i) {
        if i < |s.entries| {
          assert EntryInv(s, i);
          StepKeepsEntry(s, op, i);
          StepKeepsFound(s, op, s.entries[i].job);
        }
      }
    }
  }

  /** What a creation saw is committed, and stands in front of its own row. */
  lemma {:induction false} SeenStandsInFront(ops: seq<Op>, k: nat, job: nat)
    requires Saw(ops, k, job)
    ensures IsCommitted(Run(ops), k) && job in Run(ops).found
    ensures forall i: nat :: i < |Run(ops).entries| && Run(ops).entries[i].job == job ==> k < i
  {
    var before, op := ops[..|ops| - 1], ops[|ops| - 1];
    var s := Run(before);
    if Saw(before, k, job) {
      SeenStandsInFront(before, k, job);
      StepKeepsFound(s, op, job);
    }
    StepKeepsEntry(s, op, k);
    RunKeepsInv(before);
    forall i: nat | i < |Run(ops).entries| && Run(ops).entries[i].job == job ensures k < i {
      if i < |s.entries| {
        assert EntryInv(s, i);
        StepKeepsEntry(s, op, i);
      }
    }
  }

  /** The newest committed row that a query reads. */
  lemma {:induction false} NewestRead(entries: seq<Entry>, doc: int, tenant: Option<int>) returns (p: Option<nat>)
    ensures p.None? ==> Query(entries, doc, tenant) == []
    ensures p.Some? ==> p.value < |entries| && IsRead(entries[p.value], doc, tenant)
                        && var rows := Query(entries, doc, tenant);
                           rows != [] && rows[|rows| - 1] == entries[p.value].row
    ensures forall k: nat :: k < |entries| && IsRead(entries[k], doc, tenant) ==> p.Some? && k <= p.value
  {
    p := None;
    if entries != [] {
      var n := |entries| - 1;
      QueryOneMore(entries, n, doc, tenant);
      if IsRead(entries[n], doc, tenant) {
        p := Some(n);
      } else {
        p := NewestRead(entries[..n], doc, tenant);
      }
    }
  }

  predicate IsRead(e: Entry, doc: int, tenant: Option<int>) { e.phase.Committed? && IsMatch(e.row, doc, tenant) }

  lemma {:induction false} QueryOneMore(entries: seq<Entry>, n: nat, doc: int, tenant: Option<int>)
    requires |entries| == n + 1
    ensures Query(entries, doc, tenant)
         == Query(entries[..n], doc, tenant) + if IsRead(entries[n], doc, tenant) then [entries[n].row] else []
  {
    if entries[n].phase.Committed? { MatchingOneMore(Visible(entries[..n]), entries[n].row, doc, tenant); }
  }

  /** The creation that looked up with these fields links to rows of its document, and of its tenant if it has one. */
  predicate LinksTo(e: Entry, f: Fields) { IsMatch(e.row, f.documentId, f.tenant) }

  predicate Sees(ops: seq<Op>, k: nat, job: nat) {
    && k < |Run(ops).entries| && job in Run(ops).found && Saw(ops, k, job)
    && LinksTo(Run(ops).entries[k], Run(ops).found[job].fields)
  }

  lemma {:induction false} SeesIsSettled(ops: seq<Op>, k: nat, job: nat)
    requires ops != [] && job in Run(ops[..|ops| - 1]).found
    ensures Sees(ops, k, job) <==> Sees(ops[..|ops| - 1], k, job)
  {
    var before := ops[..|ops| - 1];
    StepKeepsFound(Run(before), ops[|ops| - 1], job);
    if Saw(before, k, job) { SeenStandsInFront(before, k, job); }
    if k < |Run(before).entries| { StepKeepsEntry(Run(before), ops[|ops| - 1], k); }
  }

  /** A creation found the newest of the rows that it sees, or the genesis value when it sees none. */
  lemma {:induction false} FoundIsNewestSeen(ops: seq<Op>, job: nat) returns (p: Option<nat>)
    requires job in Run(ops).found
    ensures p.None? ==> Run(ops).found[job].previous == Genesis
    ensures p.Some? ==> Sees(ops, p.value, job)
                        && Run(ops).entries[p.value].row.integrity == Some(Run(ops).found[job].previous)
    ensures forall k: nat :: Sees(ops, k, job) ==> p.Some? && k <= p.value
  {
    var before, op := ops[..|ops| - 1], ops[|ops| - 1];
    if job in Run(before).found {
      p := FoundIsNewestSeen(before, job);
      StepKeepsFound(Run(before), op, job);
      if p.Some? { StepKeepsEntry(Run(before), op, p.value); SeesIsSettled(ops, p.value, job); }
      forall k: nat | Sees(ops, k, job) ensures p.Some? && k <= p.value { SeesIsSettled(ops, k, job); }
    } else {
      p := LookUpFindsNewest(ops, job);
    }
  }

  lemma {:induction false} LookUpFindsNewest(ops: seq<Op>, job: nat) returns (p: Option<nat>)
    requires ops != [] && job !in Run(ops[..|ops| - 1]).found && job in Run(ops).found
    ensures p.None? ==> Run(ops).found[job].previous == Genesis
    ensures p.Some? ==> Sees(ops, p.value, job)
                        && Run(ops).entries[p.value].row.integrity == Some(Run(ops).found[job].previous)
    ensures forall k: nat :: Sees(ops, k, job) ==> p.Some? && k <= p.value
  {
    var before, op := ops[..|ops| - 1], ops[|ops| - 1];
    var s := Run(before);
    assert op.LookUp? && op.job == job && Run(ops).entries == s.entries;
    p := NewestRead(s.entries, op.fields.documentId, op.fields.tenant);
    if p.Some? { RunKeepsInv(before); assert EntryInv(s, p.value); }
    forall k: nat | Sees(ops, k, job) ensures p.Some? && k <= p.value {
      if Saw(before, k, job) { SeenStandsInFront(before, k, job); assert false; }
      assert IsRead(s.entries[k], op.fields.documentId, op.fields.tenant);
    }
  }

  // ---------------------------------------------------------------- the verdict

  /** Row k is the one that the verification reads in front of row i. */
  predicate IsReadBefore(s: Log, doc: int, tenant: Option<int>, k: nat, i: nat) {
    && k < i < |s.entries| && IsRead(s.entries[k], doc, tenant) && IsRead(s.entries[i], doc, tenant)
    && forall m :: k < m < i ==> !IsRead(s.entries[m], doc, tenant)
  }

  lemma {:induction false} PlaceInQuery(entries: seq<Entry>, k: nat, doc: int, tenant: Option<int>)
    requires k < |entries| && IsRead(entries[k], doc, tenant)
    ensures |Query(entries[..k], doc, tenant)| < |Query(entries, doc, tenant)|
    ensures Query(entries, doc, tenant)[|Query(entries[..k], doc, tenant)|] == entries[k].row
  {
    var n := |entries| - 1;
    QueryOneMore(entries, n, doc, tenant);
    if k < n {
      PlaceInQuery(entries[..n], k, doc, tenant);
      assert entries[..n][..k] == entries[..k];
    }
  }

  lemma {:induction false} QueryGrows(entries: seq<Entry>, k: nat, n: nat, doc: int, tenant: Option<int>)
    requires k < n <= |entries| && IsRead(entries[k], doc, tenant)
    ensures |Query(entries[..k], doc, tenant)| < |Query(entries[..n], doc, tenant)|
  {
    PlaceInQuery(entries[..n], k, doc, tenant);
    assert entries[..n][..k] == entries[..k];
  }

  /** In a chain no two rows have the same digest: they differ in depth. */
  lemma {:induction false} OneRowPerDigest(entries: seq<Entry>, k: nat, m: nat, doc: int, tenant: Option<int>)
    requires k < m < |entries| && IsRead(entries[k], doc, tenant) && IsRead(entries[m], doc, tenant)
    requires Chained(Query(entries, doc, tenant))
    ensures entries[k].row.integrity != entries[m].row.integrity
  {
    PlaceInQuery(entries, k, doc, tenant);
    PlaceInQuery(entries, m, doc, tenant);
    QueryGrows(entries, k, m, doc, tenant);
    BlockAt(Query(entries, doc, tenant), |Query(entries[..k], doc, tenant)|);
    BlockAt(Query(entries, doc, tenant), |Query(entries[..m], doc, tenant)|);
  }

  /** What a read row sees is read as well. */
  lemma {:induction false} SeenIsRead(ops: seq<Op>, k: nat, i: nat, doc: int, tenant: Option<int>)
    requires i < |Run(ops).entries| && IsRead(Run(ops).entries[i], doc, tenant)
    requires Sees(ops, k, Run(ops).entries[i].job)
    requires tenant.None? || Run(ops).entries[i].row.fields.tenant == tenant
    ensures k < i && IsRead(Run(ops).entries[k], doc, tenant)
  {
    RunKeepsInv(ops);
    assert EntryInv(Run(ops), i);
    SeenStandsInFront(ops, k, Run(ops).entries[i].job);
  }

  /** The row in front of row i, if one is read, was seen by it. */
  ghost predicate SawTheOneBefore(ops: seq<Op>, doc: int, tenant: Option<int>, i: nat)
    requires i < |Run(ops).entries|
  {
    forall k: nat :: IsReadBefore(Run(ops), doc, tenant, k, i) ==> Sees(ops, k, Run(ops).entries[i].job)
  }

  /** The newest row read among the first i. */
  ghost predicate IsLastRead(entries: seq<Entry>, doc: int, tenant: Option<int>, i: nat, last: Option<nat>)
    requires i <= |entries|
  {
    var rows := Query(entries[..i], doc, tenant);
    && (last.None? ==> rows == [] && forall k: nat :: k < i ==> !IsRead(entries[k], doc, tenant))
    && (last.Some? ==> last.value < i && IsRead(entries[last.value], doc, tenant)
                       && rows != [] && rows[|rows| - 1] == entries[last.value].row
                       && forall m: nat :: last.value < m < i ==> !IsRead(entries[m], doc, tenant))
  }

  lemma {:induction false} LastReadOf(entries: seq<Entry>, doc: int, tenant: Option<int>, i: nat)
    returns (last: Option<nat>)
    requires i <= |entries|
    ensures IsLastRead(entries, doc, tenant, i, last)
  {
    last := NewestRead(entries[..i], doc, tenant);
    forall k: nat | k < i && IsRead(entries[k], doc, tenant) ensures last.Some? && k <= last.value {
      assert entries[..i][k] == entries[k];
    }
  }

  lemma {:induction false} SawTheOneBeforeIff(
    ops: seq<Op>, doc: int, tenant: Option<int>, i: nat, last: Option<nat>)
    requires i < |Run(ops).entries| && IsRead(Run(ops).entries[i], doc, tenant)
    requires IsLastRead(Run(ops).entries, doc, tenant, i, last)
    ensures SawTheOneBefore(ops, doc, tenant, i)
       <==> (last.Some? ==> Sees(ops, last.value, Run(ops).entries[i].job))
  {
    if last.Some? { assert IsReadBefore(Run(ops), doc, tenant, last.value, i); }
  }

  /** What was found is the hash of the last row read, exactly if that row was seen. */
  lemma {:induction false} LinksToLastIff(ops: seq<Op>, i: nat, doc: int, tenant: Option<int>, last: nat)
    requires i < |Run(ops).entries| && IsRead(Run(ops).entries[i], doc, tenant)
    requires Chained(Query(Run(ops).entries[..i], doc, tenant))
    requires IsLastRead(Run(ops).entries, doc, tenant, i, Some(last))
    ensures Run(ops).entries[i].row.previous == Run(ops).entries[last].row.integrity
       <==> Sees(ops, last, Run(ops).entries[i].job)
  {
    var s := Run(ops);
    RunKeepsInv(ops);
    assert EntryInv(s, i) && EntryInv(s, last);
    var p := FoundIsNewestSeen(ops, s.entries[i].job);
    if p.Some? {
      SeenIsRead(ops, p.value, i, doc, tenant);
      if p.value < last { OneRowPerDigest(s.entries[..i], p.value, last, doc, tenant); }
    }
  }

  lemma {:induction false} LinksToHeadIff(ops: seq<Op>, i: nat, doc: int, tenant: Option<int>)
    requires i < |Run(ops).entries| && IsRead(Run(ops).entries[i], doc, tenant)
    requires Chained(Query(Run(ops).entries[..i], doc, tenant))
    ensures Run(ops).entries[i].row.previous == Some(Head(Query(Run(ops).entries[..i], doc, tenant)))
       <==> SawTheOneBefore(ops, doc, tenant, i)
  {
    var s := Run(ops);
    RunKeepsInv(ops);
    assert EntryInv(s, i);
    var last := LastReadOf(s.entries, doc, tenant, i);
    SawTheOneBeforeIff(ops, doc, tenant, i, last);
    if last.Some? {
      assert EntryInv(s, last.value);
      LinksToLastIff(ops, i, doc, tenant, last.value);
    } else {
      FirstFoundNothing(ops, i, doc, tenant);
    }
  }

  lemma {:induction false} FirstFoundNothing(ops: seq<Op>, i: nat, doc: int, tenant: Option<int>)
    requires i < |Run(ops).entries| && IsRead(Run(ops).entries[i], doc, tenant)
    requires forall k: nat :: k < i ==> !IsRead(Run(ops).entries[k], doc, tenant)
    ensures Run(ops).entries[i].row.previous == Some(Genesis)
  {
    RunKeepsInv(ops);
    assert EntryInv(Run(ops), i);
    var p := FoundIsNewestSeen(ops, Run(ops).entries[i].job);
    if p.Some? { SeenIsRead(ops, p.value, i, doc, tenant); }
  }

  /** One more row keeps the chain exactly when, if it is read, it saw the one in front of it. */
  lemma {:induction false} OneMoreRowIff(ops: seq<Op>, doc: int, tenant: Option<int>, i: nat)
    requires i < |Run(ops).entries|
    ensures Chained(Query(Run(ops).entries[..i + 1], doc, tenant))
       <==> Chained(Query(Run(ops).entries[..i], doc, tenant)) && SawTheOneBefore(ops, doc, tenant, i)
  {
    var entries := Run(ops).entries;
    var e := entries[i];
    assert entries[..i + 1][..i] == entries[..i];
    QueryOneMore(entries[..i + 1], i, doc, tenant);
    if IsRead(e, doc, tenant) {
      RunKeepsInv(ops);
      assert EntryInv(Run(ops), i);
      ChainedOneMore(Query(entries[..i], doc, tenant), e.row, e.row.previous.value);
      if Chained(Query(entries[..i], doc, tenant)) { LinksToHeadIff(ops, i, doc, tenant); }
    }
  }

  lemma {:induction false} FirstRowsChainIff(ops: seq<Op>, doc: int, tenant: Option<int>, n: nat)
    requires n <= |Run(ops).entries|
    ensures Chained(Query(Run(ops).entries[..n], doc, tenant))
       <==> forall i: nat :: i < n ==> SawTheOneBefore(ops, doc, tenant, i)
  {
    if n > 0 {
      FirstRowsChainIff(ops, doc, tenant, n - 1);
      OneMoreRowIff(ops, doc, tenant, n - 1);
    }
  }

  /**
   However creations overlap, the rows read for a document, of one tenant or of all, verify if and only if each of
   them looked up when the row in front of it was committed already, and has no tenant or the same one.
   */
  lemma {:induction false} DocumentVerifiesIff(ops: seq<Op>, doc: int, tenant: Option<int>)
    ensures Chained(Query(Run(ops).entries, doc, tenant))
       <==> forall i: nat :: i < |Run(ops).entries| ==> SawTheOneBefore(ops, doc, tenant, i)
  {
    FirstRowsChainIff(ops, doc, tenant, |Run(ops).entries|);
    assert Run(ops).entries[..|Run(ops).entries|] == Run(ops).entries;
  }

  // ---------------------------------------------------------------- with and without overlap

  lemma {:induction false} Next(ops: seq<Op>, s: Log, op: Op, t: Log)
    requires Run(ops) == s && Step(s, op) == t
    ensures Run(ops + [op]) == t
  {
    assert (ops + [op])[..|ops|] == ops;
  }

  lemma {:induction false} LastVisible(entries: seq<Entry>, e: Entry)
    ensures Visible(entries + [e]) == if e.phase.Committed? then Visible(entries) + [e.row] else Visible(entries)
  {
    assert (entries + [e])[..|entries|] == entries;
  }

  /** The steps of one creation with nothing in between append the row that the sequential model appends. */
  lemma {:induction false} WithoutOverlapIsCreate(ops: seq<Op>, job: nat, f: Fields)
    requires job !in Run(ops).found && !HasInserted(Run(ops), job)
    ensures var next := ops + [LookUp(job, f)] + [Insert(job)] + [Commit(|Run(ops).entries|)];
            Visible(Run(next).entries) == Create(Visible(Run(ops).entries), f)
  {
    var s := Run(ops);
    var n, d := |s.entries|, Head(Query(s.entries, f.documentId, f.tenant));
    var s1 := s.(found := s.found[job := Found(f, d)]);
    var s2 := s1.(entries := s.entries + [Entry(job, RowOf(f, d), Inserted)]);
    var s3 := s1.(entries := s.entries + [Entry(job, RowOf(f, d), Committed)]);
    Next(ops, s, LookUp(job, f), s1);
    Next(ops + [LookUp(job, f)], s1, Insert(job), s2);
    assert s2.entries[n := Entry(job, RowOf(f, d), Committed)] == s3.entries;
    Next(ops + [LookUp(job, f)] + [Insert(job)], s2, Commit(n), s3);
    LastVisible(s.entries, Entry(job, RowOf(f, d), Committed));
  }

  function BothLookUpFirst(f: Fields, g: Fields): seq<Op> { [LookUp(0, f)] + [LookUp(1, g)] }

  /** Two creations that both look up before either inserts. */
  function TwoAtOnce(f: Fields, g: Fields): seq<Op> {
    BothLookUpFirst(f, g) + [Insert(0)] + [Commit(0)] + [Insert(1)] + [Commit(1)]
  }

  lemma {:induction false} AfterBothLookUps(f: Fields, g: Fields)
    ensures Run(BothLookUpFirst(f, g)) == Log([], map[0 := Found(f, Genesis), 1 := Found(g, Genesis)])
  {
    assert Run([]) == EMPTY_LOG && [] + [LookUp(0, f)] == [LookUp(0, f)];
    assert Query([], f.documentId, f.tenant) == [] && Query([], g.documentId, g.tenant) == [];
    Next([], EMPTY_LOG, LookUp(0, f), Log([], map[0 := Found(f, Genesis)]));
    Next([LookUp(0, f)], Log([], map[0 := Found(f, Genesis)]), LookUp(1, g),
         Log([], map[0 := Found(f, Genesis), 1 := Found(g, Genesis)]));
  }

  lemma {:induction false} AfterTwoAtOnce(f: Fields, g: Fields)
    ensures Run(TwoAtOnce(f, g)).entries
         == [Entry(0, RowOf(f, Genesis), Committed), Entry(1, RowOf(g, Genesis), Committed)]
  {
    var ops, found := BothLookUpFirst(f, g), map[0 := Found(f, Genesis), 1 := Found(g, Genesis)];
    var a, b := Entry(0, RowOf(f, Genesis), Inserted), Entry(1, RowOf(g, Genesis), Inserted);
    var c, d := a.(phase := Committed), b.(phase := Committed);
    AfterBothLookUps(f, g);
    assert [] + [a] == [a] && [a][0 := c] == [c] && [c] + [b] == [c, b] && [c, b][1 := d] == [c, d];
    Next(ops, Log([], found), Insert(0), Log([a], found));
    Next(ops + [Insert(0)], Log([a], found), Commit(0), Log([c], found));
    Next(ops + [Insert(0)] + [Commit(0)], Log([c], found), Insert(1), Log([c, b], found));
    Next(ops + [Insert(0)] + [Commit(0)] + [Insert(1)], Log([c, b], found), Commit(1), Log([c, d], found));
  }

  lemma {:induction false} QueryOfTwo(a: Entry, b: Entry, doc: int, tenant: Option<int>)
    requires IsRead(a, doc, tenant) && IsRead(b, doc, tenant)
    ensures Query([a, b], doc, tenant) == [a.row] + [b.row]
  {
    assert [a, b][..1] == [a] && [a][..0] == [] && Query([], doc, tenant) == [];
    QueryOneMore([a], 0, doc, tenant);
    QueryOneMore([a, b], 1, doc, tenant);
  }

  /** Two audits of one document and tenant at once: both link to the genesis value, and the chain is broken. */
  lemma {:induction false} TwoAtOnceBreakTheChain(f: Fields, g: Fields)
    requires f.documentId == g.documentId && f.tenant == g.tenant
    ensures !Chained(Query(Run(TwoAtOnce(f, g)).entries, f.documentId, f.tenant))
  {
    var a, b := Entry(0, RowOf(f, Genesis), Committed), Entry(1, RowOf(g, Genesis), Committed);
    AfterTwoAtOnce(f, g);
    QueryOfTwo(a, b, f.documentId, f.tenant);
    ChainedOneMore([a.row], b.row, Genesis);
  }
}
