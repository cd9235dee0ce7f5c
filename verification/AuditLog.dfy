/**
 The hash-chained audit log (verify_audit.py): its verification, over one tenant's rows or over all
 of them, and what a verified log commits to.
 */
module AuditLog {
  import opened Options
  import opened HashChain

  /** The fields that enter the hash, normalised: None becomes the empty text. */
  datatype Fields = Fields(
    recordId: int, query: string, response: string, allowed: bool,
    createdAt: string, riskLevel: string, approvalStatus: string)

  /** A row of audit_logs, reduced to the columns that verification reads. */
  datatype LogRow = LogRow(
    id: int, tenant: Option<int>,
    query: Option<string>, response: Option<string>, allowed: Option<bool>, createdAt: string,
    riskLevel: Option<string>, approvalStatus: Option<string>,
    integrity: Option<Digest<Fields>>, previous: Option<Digest<Fields>>)

  function OrEmpty(s: Option<string>): string { if s.Some? then s.value else "" }

  function HashedFields(r: LogRow): Fields {
    Fields(r.id, OrEmpty(r.query), OrEmpty(r.response), r.allowed == Some(true), r.createdAt,
           OrEmpty(r.riskLevel), OrEmpty(r.approvalStatus))
  }

  function RecordHash(r: LogRow, previous: Digest<Fields>): Digest<Fields> { Sha(HashedFields(r), previous) }

  function BlockOf(r: LogRow): Block<Fields> { Block(HashedFields(r), r.previous, r.integrity) }

  function Blocks(rows: seq<LogRow>): (blocks: seq<Block<Fields>>)
    ensures |blocks| == |rows| && forall i :: 0 <= i < |rows| ==> blocks[i] == BlockOf(rows[i])
  {
    seq(|rows|, i requires 0 <= i < |rows| => BlockOf(rows[i]))
  }

  /** The rows of one tenant, or those without a tenant. */
  function Labelled(rows: seq<LogRow>, tenant: Option<int>): seq<LogRow> {
    if rows == [] then []
    else
      var before, last := Labelled(rows[..|rows| - 1], tenant), rows[|rows| - 1];
      if last.tenant == tenant then before + [last] else before
  }

  /** `WHERE tenant_id = :tenant_id`, or every row when no tenant is given; rows are in id order. */
  function TenantRows(rows: seq<LogRow>, tenant: Option<int>): seq<LogRow> {
    if tenant.None? then rows else Labelled(rows, tenant)
  }

  // ---------------------------------------------------------------- verification

  datatype Fault = MissingHashMetadata | MissingRecord(after: int, at: int) | BrokenLink | HashMismatch

  datatype Verdict =
    | Valid(checked: nat, startedAt: Option<string>)
    | Invalid(checked: nat, failedId: int, fault: Fault)

  /** Position of the first row with a hash; rows before it predate the chain. */
  function ChainStart(rows: seq<LogRow>): (n: nat)
    ensures n <= |rows|
    ensures forall i :: 0 <= i < n ==> rows[i].integrity.None?
    ensures n < |rows| ==> rows[n].integrity.Some?
  {
    if rows == [] || rows[0].integrity.Some? then 0 else 1 + ChainStart(rows[1..])
  }

  function Active(rows: seq<LogRow>): seq<LogRow> { rows[ChainStart(rows)..] }

  /**
   What is wrong with a row, if anything, given the id and hash of the row checked before it; id gaps count
   only when all tenants are read.
   */
  function RowFault(r: LogRow, prevId: Option<int>, prevHash: Option<Digest<Fields>>, allTenants: bool): Option<Fault> {
    if r.integrity.None? || r.previous.None? then Some(MissingHashMetadata)
    else if allTenants && prevId.Some? && r.id != prevId.value + 1 then Some(MissingRecord(prevId.value, r.id))
    else if r.previous.value != (if prevHash.None? then Genesis else prevHash.value) then Some(BrokenLink)
    else if r.integrity.value != RecordHash(r, r.previous.value) then Some(HashMismatch)
    else None
  }

  function IdBefore(active: seq<LogRow>, i: nat): Option<int>
    requires i <= |active|
  {
    if i == 0 then None else Some(active[i - 1].id)
  }

  function HashBefore(active: seq<LogRow>, i: nat): Option<Digest<Fields>>
    requires i <= |active|
  {
    if i == 0 then None else active[i - 1].integrity
  }

  function FaultAt(active: seq<LogRow>, i: nat, allTenants: bool): Option<Fault>
    requires i < |active|
  {
    RowFault(active[i], IdBefore(active, i), HashBefore(active, i), allTenants)
  }

  predicate SoundUpTo(active: seq<LogRow>, n: nat, allTenants: bool)
    requires n <= |active|
  {
    forall i :: 0 <= i < n ==> FaultAt(active, i, allTenants).None?
  }

  /** The verdict names the first faulty row and its fault. */
  ghost predicate IsVerdict(v: Verdict, rows: seq<LogRow>, allTenants: bool) {
    IsVerdictOn(v, Active(rows), allTenants)
  }

  ghost predicate IsVerdictOn(v: Verdict, active: seq<LogRow>, allTenants: bool) {
    match v
    case Valid(checked, startedAt) =>
      && checked == |active| && SoundUpTo(active, checked, allTenants)
      && startedAt == if active == [] then None else Some(active[0].createdAt)
    case Invalid(checked, failedId, fault) =>
      && checked < |active| && SoundUpTo(active, checked, allTenants)
      && FaultAt(active, checked, allTenants) == Some(fault) && failedId == active[checked].id
  }

  /** The checks on one row, in the program's order. */
  method CheckRow(r: LogRow, prevId: Option<int>, prevHash: Option<Digest<Fields>>, allTenants: bool)
    returns (fault: Option<Fault>)
    ensures fault == RowFault(r, prevId, prevHash, allTenants)
  {
    if r.integrity.None? || r.previous.None? {
      return Some(MissingHashMetadata);
    }
    if allTenants && prevId.Some? {
      if r.id != prevId.value + 1 {
        return Some(MissingRecord(prevId.value, r.id));
      }
    }
    var expected := if prevHash.None? then Genesis else prevHash.value;
    if r.previous.value != expected {
      return Some(BrokenLink);
    }
    if r.integrity.value != RecordHash(r, r.previous.value) {
      return Some(HashMismatch);
    }
    return None;
  }

  method FindChainStart(rows: seq<LogRow>) returns (start: nat)
    ensures start == ChainStart(rows)
  {
    start := 0;
    while start < |rows| && rows[start].integrity.None?
      invariant start <= ChainStart(rows)
    {
      start := start + 1;
    }
  }

  method VerifyAuditChain(table: seq<LogRow>, tenant: Option<int>) returns (v: Verdict)
    ensures IsVerdict(v, TenantRows(table, tenant), tenant.None?)
  {
    var rows := TenantRows(table, tenant);
    var start := FindChainStart(rows);
    if start == |rows| { return Valid(0, None); }
    var active := rows[start..];
    v := VerifyFrom(active, tenant.None?);
  }

  /** The main loop, over the rows from the start of the chain on. */
  method VerifyFrom(active: seq<LogRow>, allTenants: bool) returns (v: Verdict)
    requires active != []
    ensures IsVerdictOn(v, active, allTenants)
  {
    var checked := 0;
    var prevId, prevHash: Option<Digest<Fields>> := None, None;
    for i := 0 to |active|
      invariant checked == i
      invariant SoundUpTo(active, i, allTenants)
      invariant prevId == IdBefore(active, i) && prevHash == HashBefore(active, i)
    {
      var fault := CheckRow(active[i], prevId, prevHash, allTenants);
      if fault.Some? {
        return Invalid(checked, active[i].id, fault.value);
      }
      prevId, prevHash := Some(active[i].id), active[i].integrity;
      checked := checked + 1;
    }
    return Valid(checked, Some(active[0].createdAt));
  }

  lemma {:induction false} HashBeforeIsHead(active: seq<LogRow>, i: nat)
    requires i <= |active| && (i > 0 ==> active[i - 1].integrity.Some?)
    ensures Head(Blocks(active[..i])) == if HashBefore(active, i).None? then Genesis else HashBefore(active, i).value
  {
  }

  lemma {:induction false} LastRowIsSoundIff(active: seq<LogRow>, n: nat)
    requires |active| == n + 1 && (n > 0 ==> active[n - 1].integrity.Some?)
    ensures FaultAt(active, n, false).None?
       <==> var head := Head(Blocks(active[..n]));
            active[n].previous == Some(head) && active[n].integrity == Some(RecordHash(active[n], head))
  {
    HashBeforeIsHead(active, n);
  }

  lemma {:induction false} SoundRowIsHashed(active: seq<LogRow>, i: nat)
    requires i < |active| && FaultAt(active, i, false).None?
    ensures active[i].integrity.Some?
  {
  }

  lemma {:induction false} SoundPrefix(active: seq<LogRow>, n: nat)
    requires n <= |active|
    ensures SoundUpTo(active[..n], n, false) <==> SoundUpTo(active, n, false)
  {
    forall i | 0 <= i < n
      ensures FaultAt(active[..n], i, false) == FaultAt(active, i, false)
    {
    }
  }

  lemma {:induction false} SoundIffChained(active: seq<LogRow>)
    ensures SoundUpTo(active, |active|, false) <==> Chained(Blocks(active))
  {
    if active != [] {
      var n := |active| - 1;
      SoundIffChained(active[..n]);
      SoundPrefix(active, n);
      assert Blocks(active)[..n] == Blocks(active[..n]);
      if SoundUpTo(active, n, false) {
        if n > 0 { SoundRowIsHashed(active, n - 1); }
        LastRowIsSoundIff(active, n);
      }
    }
  }

  /** One tenant's log is accepted exactly when its active part is a chain, and then every row of it was checked. */
  lemma {:induction false} VerdictIsChaining(v: Verdict, rows: seq<LogRow>)
    requires IsVerdict(v, rows, false)
    ensures v.Valid? <==> Chained(Blocks(Active(rows)))
    ensures v.Valid? ==> v.checked == |Active(rows)|
  {
    SoundIffChained(Active(rows));
  }

  /** What a row must link to. */
  function LinkBefore(active: seq<LogRow>, i: nat): Option<Digest<Fields>>
    requires i < |active|
  {
    if i == 0 then Some(Genesis) else active[i - 1].integrity
  }

  predicate FollowsOn(active: seq<LogRow>, i: nat, allTenants: bool)
    requires i < |active|
  {
    && active[i].integrity.Some? && active[i].previous.Some? && active[i].previous == LinkBefore(active, i)
    && (allTenants && i > 0 ==> active[i].id == active[i - 1].id + 1)
  }

  lemma {:induction false} FaultOfRow(active: seq<LogRow>, i: nat, allTenants: bool)
    requires i < |active| && (i > 0 ==> active[i - 1].integrity.Some?)
    ensures var r := active[i];
            FaultAt(active, i, allTenants)
            == if r.integrity.None? || r.previous.None? then Some(MissingHashMetadata)
               else if i > 0 && allTenants && r.id != active[i - 1].id + 1 then
                 Some(MissingRecord(active[i - 1].id, r.id))
               else if r.previous != LinkBefore(active, i) then Some(BrokenLink)
               else if r.integrity != Some(RecordHash(r, r.previous.value)) then Some(HashMismatch)
               else None
    ensures FaultAt(active, i, allTenants).None? ==> FollowsOn(active, i, allTenants)
  {
  }

  lemma {:induction false} SoundRowsFollowOn(active: seq<LogRow>, n: nat, allTenants: bool)
    requires n <= |active| && SoundUpTo(active, n, allTenants)
    ensures forall i: nat :: i < n ==> FollowsOn(active, i, allTenants)
  {
    if n > 0 {
      SoundRowsFollowOn(active, n - 1, allTenants);
      if n > 1 { assert FollowsOn(active, n - 2, allTenants); }
      FaultOfRow(active, n - 1, allTenants);
    }
  }

  /**
   Every row in front of the reported one follows on the row before it: both hash columns are set, the link is the hash
   before it, and for all tenants there is no gap between their ids.  The reported row lacks a hash column; or else its
   id leaves a gap; or else its link is another; or else its hash is not that of its fields and its link.
   */
  lemma {:induction false} FaultIsNamed(v: Verdict, rows: seq<LogRow>, allTenants: bool)
    requires IsVerdict(v, rows, allTenants) && v.Invalid?
    ensures v.checked < |Active(rows)| && v.failedId == Active(rows)[v.checked].id
    ensures forall i: nat :: i < v.checked ==> FollowsOn(Active(rows), i, allTenants)
    ensures var active, n := Active(rows), v.checked;
            var r := active[n];
            if r.integrity.None? || r.previous.None? then v.fault == MissingHashMetadata
            else if n > 0 && allTenants && r.id != active[n - 1].id + 1 then
              v.fault == MissingRecord(active[n - 1].id, r.id)
            else if r.previous != LinkBefore(active, n) then v.fault == BrokenLink
            else v.fault == HashMismatch && r.integrity != Some(RecordHash(r, r.previous.value))
  {
    var active, n := Active(rows), v.checked;
    SoundRowsFollowOn(active, n, allTenants);
    if n > 0 { assert FollowsOn(active, n - 1, allTenants); }
    FaultOfRow(active, n, allTenants);
  }

  // ---------------------------------------------------------------- what verification detects

  /** get_audit_hash_chain_root for a tenant: the newest hash, or the genesis value. */
  function ChainRoot(rows: seq<LogRow>): Digest<Fields> {
    if rows == [] then Genesis
    else if rows[|rows| - 1].integrity.Some? then rows[|rows| - 1].integrity.value
    else ChainRoot(rows[..|rows| - 1])
  }

  lemma {:induction false} RootIsHead(rows: seq<LogRow>)
    requires Chained(Blocks(Active(rows)))
    ensures ChainRoot(rows) == Head(Blocks(Active(rows)))
  {
    var start := ChainStart(rows);
    if start < |rows| {
      BlockAt(Blocks(Active(rows)), |rows| - start - 1);
    } else {
      NoHashNoRoot(rows);
    }
  }

  lemma {:induction false} NoHashNoRoot(rows: seq<LogRow>)
    requires forall i :: 0 <= i < |rows| ==> rows[i].integrity.None?
    ensures ChainRoot(rows) == Genesis
  {
    if rows != [] { NoHashNoRoot(rows[..|rows| - 1]); }
  }

  /** Equal texts, where None and the empty text count as equal. */
  predicate SameText(a: Option<string>, b: Option<string>) { a == b || (IsBlank(a) && IsBlank(b)) }

  predicate IsBlank(a: Option<string>) { a.None? || |a.value| == 0 }

  /** The rows agree in every column that the log protects. */
  predicate SameContent(p: LogRow, q: LogRow) {
    && p.id == q.id && SameText(p.query, q.query) && SameText(p.response, q.response)
    && (p.allowed == Some(true) <==> q.allowed == Some(true)) && p.createdAt == q.createdAt
    && SameText(p.riskLevel, q.riskLevel) && SameText(p.approvalStatus, q.approvalStatus)
  }

  lemma {:induction false} HashedFieldsIff(p: LogRow, q: LogRow)
    ensures HashedFields(p) == HashedFields(q) <==> SameContent(p, q)
  {
  }

  /**
   Two logs that verify and have the same chain root have the same history: equally many chained
   rows, which agree column by column.  Changing a row without changing the root is always reported.
   */
  lemma {:induction false} RootCommitsToHistory(a: seq<LogRow>, b: seq<LogRow>)
    requires Chained(Blocks(Active(a))) && Chained(Blocks(Active(b)))
    requires ChainRoot(a) == ChainRoot(b)
    ensures |Active(a)| == |Active(b)|
    ensures forall i :: 0 <= i < |Active(a)| ==> SameContent(Active(a)[i], Active(b)[i])
  {
    RootIsHead(a);
    RootIsHead(b);
    HeadCommits(Blocks(Active(a)), Blocks(Active(b)));
    forall i | 0 <= i < |Active(a)| ensures SameContent(Active(a)[i], Active(b)[i]) {
      assert Blocks(Active(a))[i] == Blocks(Active(b))[i];
      HashedFieldsIff(Active(a)[i], Active(b)[i]);
    }
  }

  lemma {:induction false} HashesKeepStart(rows: seq<LogRow>, altered: seq<LogRow>)
    requires |rows| == |altered| && forall i :: 0 <= i < |rows| ==> altered[i].integrity == rows[i].integrity
    ensures ChainStart(altered) == ChainStart(rows)
  {
    if rows != [] { HashesKeepStart(rows[1..], altered[1..]); }
  }

  /** A row whose hash columns are kept is sound exactly if its content is that of the row it replaces. */
  lemma {:induction false} AlteredRowFault(active: seq<LogRow>, i: nat, r: LogRow)
    requires Chained(Blocks(active)) && i < |active|
    requires r.integrity == active[i].integrity && r.previous == active[i].previous
    ensures FaultAt(active[i := r], i, false) == if SameContent(r, active[i]) then None else Some(HashMismatch)
  {
    SoundIffChained(active);
    assert FaultAt(active, i, false).None?;
    HashedFieldsIff(r, active[i]);
  }

  lemma {:induction false} OthersStaySound(active: seq<LogRow>, altered: seq<LogRow>, i: nat, j: nat)
    requires Chained(Blocks(active)) && i < |active| == |altered| && j < |active| && j != i
    requires altered == active[i := altered[i]]
    requires altered[i].integrity == active[i].integrity && altered[i].previous == active[i].previous
    ensures FaultAt(altered, j, false).None?
  {
    SoundIffChained(active);
    assert FaultAt(active, j, false).None?;
  }

  lemma {:induction false} OthersAreSound(active: seq<LogRow>, altered: seq<LogRow>, i: nat)
    requires Chained(Blocks(active)) && i < |active| == |altered| && altered == active[i := altered[i]]
    requires altered[i].integrity == active[i].integrity && altered[i].previous == active[i].previous
    ensures forall j: nat :: j < |altered| && j != i ==> FaultAt(altered, j, false).None?
  {
    forall j: nat | j < |altered| && j != i ensures FaultAt(altered, j, false).None? {
      OthersStaySound(active, altered, i, j);
    }
  }

  /** The verdict on rows of which at most one is faulty. */
  lemma {:induction false} VerdictOfOneFault(v: Verdict, altered: seq<LogRow>, i: nat)
    requires IsVerdictOn(v, altered, false) && i < |altered|
    requires forall j: nat :: j < |altered| && j != i ==> FaultAt(altered, j, false).None?
    ensures FaultAt(altered, i, false).None? ==> v.Valid? && v.checked == |altered|
    ensures FaultAt(altered, i, false).Some? ==> v == Invalid(i, altered[i].id, FaultAt(altered, i, false).value)
  {
  }

  lemma {:induction false} AlteredVerdict(v: Verdict, active: seq<LogRow>, altered: seq<LogRow>, i: nat)
    requires Chained(Blocks(active)) && i < |active| == |altered| && altered == active[i := altered[i]]
    requires altered[i].integrity == active[i].integrity && altered[i].previous == active[i].previous
    requires IsVerdictOn(v, altered, false)
    ensures SameContent(altered[i], active[i]) ==> v.Valid? && v.checked == |active|
    ensures !SameContent(altered[i], active[i]) ==> v == Invalid(i, altered[i].id, HashMismatch)
  {
    AlteredRowFault(active, i, altered[i]);
    OthersAreSound(active, altered, i);
    VerdictOfOneFault(v, altered, i);
  }

  lemma {:induction false} ActiveOfAltered(rows: seq<LogRow>, altered: seq<LogRow>, n: nat)
    requires ChainStart(rows) <= n < |rows| == |altered| && altered == rows[n := altered[n]]
    requires altered[n].integrity == rows[n].integrity
    ensures var i := n - ChainStart(rows);
            && ChainStart(altered) == ChainStart(rows)
            && i < |Active(rows)| == |Active(altered)| && Active(altered) == Active(rows)[i := Active(altered)[i]]
            && Active(rows)[i] == rows[n] && Active(altered)[i] == altered[n]
  {
    HashesKeepStart(rows, altered);
  }

  /**
   Replacing one chained row of an accepted log by another with the same two hash columns is accepted if and only if
   they agree in every protected column; otherwise that row, and no earlier one, is reported as a hash mismatch.
   */
  lemma {:induction false} AlteredRowIsReported(v: Verdict, rows: seq<LogRow>, altered: seq<LogRow>, n: nat)
    requires Chained(Blocks(Active(rows)))
    requires ChainStart(rows) <= n < |rows| == |altered| && altered == rows[n := altered[n]]
    requires altered[n].integrity == rows[n].integrity && altered[n].previous == rows[n].previous
    requires IsVerdict(v, altered, false)
    ensures SameContent(altered[n], rows[n]) ==> v.Valid? && v.checked == |Active(rows)|
    ensures !SameContent(altered[n], rows[n]) ==> v == Invalid(n - ChainStart(rows), altered[n].id, HashMismatch)
  {
    var i := n - ChainStart(rows);
    var before, after := Active(rows), Active(altered);
    assert IsVerdictOn(v, after, false);
    assert i < |before| == |after| && before[i] == rows[n] && after[i] == altered[n]
        && after == before[i := after[i]] by {
      ActiveOfAltered(rows, altered, n);
    }
    AlteredVerdict(v, before, after, i);
  }

  /** Deleting, repeating or reordering chained rows is reported, unless what is left is a prefix. */
  lemma {:induction false} OnlyPrefixesOfLogVerify(v: Verdict, active: seq<LogRow>, positions: seq<nat>)
    requires Chained(Blocks(active)) && forall j :: 0 <= j < |positions| ==> positions[j] < |active|
    requires IsVerdict(v, Select(active, positions), false)
    ensures v.Valid? <==> (forall j :: 0 <= j < |positions| ==> positions[j] == j)
  {
    var rows := Select(active, positions);
    if positions != [] { BlockAt(Blocks(active), positions[0]); }
    assert Active(rows) == rows;
    VerdictIsChaining(v, rows);
    assert Blocks(rows) == Select(Blocks(active), positions);
    OnlyPrefixesVerify(Blocks(active), positions);
  }
}
