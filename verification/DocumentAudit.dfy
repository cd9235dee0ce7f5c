/**
 The per-document audit chain (document_processing/auditor.py).  Its hash covers no row id, so
 only the depth of the chain tells positions apart.
 */
module DocumentAudit {
  import opened Options
  import opened HashChain

  /** The hashed fields; the tenant takes part only when there is one. */
  datatype Fields = Fields(
    documentId: int, action: string, actor: string, details: string, timestamp: string, tenant: Option<int>)

  /** A row of document_audits: its hashed columns and its two hash columns. */
  type Row = Block<Fields>

  /** `WHERE document_id = :doc AND (:tenant IS NULL OR tenant_id = :tenant)`. */
  predicate IsMatch(row: Row, doc: int, tenant: Option<int>) {
    row.fields.documentId == doc && (tenant.None? || row.fields.tenant == tenant)
  }

  /** The matching rows, `ORDER BY id`. */
  function Matching(rows: seq<Row>, doc: int, tenant: Option<int>): seq<Row> {
    if rows == [] then []
    else
      var before, last := Matching(rows[..|rows| - 1], doc, tenant), rows[|rows| - 1];
      if IsMatch(last, doc, tenant) then before + [last] else before
  }

  /** The newest matching row's hash, or the genesis value; hashing links the new row to it. */
  function Create(rows: seq<Row>, f: Fields): seq<Row> {
    rows + [RowOf(f, Head(Matching(rows, f.documentId, f.tenant)))]
  }

  function RowOf(f: Fields, previous: Digest<Fields>): Row { Block(f, Some(previous), Some(Sha(f, previous))) }

  function Created(entries: seq<Fields>): seq<Row> {
    if entries == [] then [] else Create(Created(entries[..|entries| - 1]), entries[|entries| - 1])
  }

  datatype Verdict = Valid(checked: nat, latest: Option<Digest<Fields>>) | Invalid(checked: nat, linkBroken: bool)

  class AuditTable {
    var rows: seq<Row>

    constructor ()
      ensures rows == []
    {
      rows := [];
    }

    method CreateDocumentAudit(f: Fields) returns (hash: Digest<Fields>)
      modifies this
      ensures rows == Create(old(rows), f) && Some(hash) == rows[|rows| - 1].integrity
    {
      var matching := Matching(rows, f.documentId, f.tenant);
      var previous := Genesis;
      if matching != [] && matching[|matching| - 1].integrity.Some? {
        previous := matching[|matching| - 1].integrity.value;
      }
      hash := Sha(f, previous);
      rows := rows + [Block(f, Some(previous), Some(hash))];
    }

    method VerifyDocumentAuditChain(doc: int, tenant: Option<int>) returns (v: Verdict)
      ensures v.Valid? <==> Chained(Matching(rows, doc, tenant))
      ensures v.Valid? ==> v.checked == |Matching(rows, doc, tenant)|
      ensures v.Valid? ==> v.latest == if v.checked == 0 then None else Some(Head(Matching(rows, doc, tenant)))
      ensures v.Invalid? ==>
        v.checked < |Matching(rows, doc, tenant)| && Chained(Matching(rows, doc, tenant)[..v.checked])
      ensures v.Invalid? ==> !Chained(Matching(rows, doc, tenant)[..v.checked + 1])
      ensures v.Invalid? ==>
        var chain := Matching(rows, doc, tenant);
        v.linkBroken <==> chain[v.checked].previous != Some(Head(chain[..v.checked]))
    {
      var chain := Matching(rows, doc, tenant);
      var prevHash: Option<Digest<Fields>> := None;
      for n := 0 to |chain|
        invariant Chained(chain[..n])
        invariant prevHash == if n == 0 then None else Some(Head(chain[..n]))
      {
        var row := chain[n];
        assert chain[..n + 1][..n] == chain[..n];
        var expected := if prevHash.None? then Genesis else prevHash.value;
        if row.previous != Some(expected) {
          NotChainedFrom(chain, n + 1);
          return Invalid(n, true);
        }
        if row.integrity != Some(Sha(row.fields, row.previous.value)) {
          NotChainedFrom(chain, n + 1);
          return Invalid(n, false);
        }
        prevHash := row.integrity;
      }
      assert chain[..|chain|] == chain;
      return Valid(|chain|, prevHash);
    }
  }

  lemma {:induction false} NotChainedFrom(chain: seq<Row>, n: nat)
    requires n <= |chain| && !Chained(chain[..n])
    ensures !Chained(chain)
  {
    if Chained(chain) { ChainedPrefix(chain, n); assert false; }
  }

  // ---------------------------------------------------------------- what creations keep

  /** Every row carries the digest of its own fields. */
  predicate SelfHashed(rows: seq<Row>) {
    forall i :: 0 <= i < |rows| ==>
      rows[i].integrity.Some? && rows[i].integrity.value.Sha? && rows[i].integrity.value.fields == rows[i].fields
  }

  lemma {:induction false} CreatedRowsMatch(entries: seq<Fields>, doc: int, tenant: Option<int>)
    ensures SelfHashed(Created(entries)) && SelfHashed(Matching(Created(entries), doc, tenant))
    ensures forall i :: 0 <= i < |Matching(Created(entries), doc, tenant)| ==>
      Matching(Created(entries), doc, tenant)[i].fields.documentId == doc
      && (tenant.Some? ==> Matching(Created(entries), doc, tenant)[i].fields.tenant == tenant)
  {
    if entries != [] {
      var before := Created(entries[..|entries| - 1]);
      CreatedRowsMatch(entries[..|entries| - 1], doc, tenant);
      assert Created(entries)[..|before|] == before;
    }
  }

  /** For a real tenant, every sequence of creations, of any documents and tenants, leaves a chain that verifies. */
  lemma {:induction false} TenantChainVerifies(entries: seq<Fields>, doc: int, t: int)
    ensures Chained(Matching(Created(entries), doc, Some(t)))
  {
    if entries != [] {
      var before, f := Created(entries[..|entries| - 1]), entries[|entries| - 1];
      TenantChainVerifies(entries[..|entries| - 1], doc, t);
      assert Created(entries)[..|before|] == before;
      var mine := Matching(before, doc, Some(t));
      if f.documentId == doc && f.tenant == Some(t) {
        ChainedAppend(mine, Created(entries)[|before|]);
      }
    }
  }

  /** The tenants under which one document's rows were created, in order. */
  function Labels(entries: seq<Fields>, doc: int): seq<Option<int>> {
    if entries == [] then []
    else
      var before, last := Labels(entries[..|entries| - 1], doc), entries[|entries| - 1];
      if last.documentId == doc then before + [last.tenant] else before
  }

  /** No row with a tenant follows a row created under another label. */
  predicate SwitchesOnlyToNone(labels: seq<Option<int>>) {
    forall i :: 0 < i < |labels| ==> labels[i].None? || labels[i] == labels[i - 1]
  }

  lemma {:induction false} LabelsAreTenants(entries: seq<Fields>, doc: int)
    ensures var all := Matching(Created(entries), doc, None);
            |all| == |Labels(entries, doc)| && forall i :: 0 <= i < |all| ==>
                all[i].fields.tenant == Labels(entries, doc)[i]
  {
    if entries != [] {
      var before := Created(entries[..|entries| - 1]);
      LabelsAreTenants(entries[..|entries| - 1], doc);
      assert Created(entries)[..|before|] == before;
    }
  }

  /** One tenant's newest row of a document is the document's newest row, if that one has this tenant. */
  lemma {:induction false} NewestOfTenant(rows: seq<Row>, doc: int, t: int)
    ensures var all, mine := Matching(rows, doc, None), Matching(rows, doc, Some(t));
            all != [] && all[|all| - 1].fields.tenant == Some(t) ==> mine != [] && mine[|mine| - 1] == all[|all| - 1]
  {
    if rows != [] { NewestOfTenant(rows[..|rows| - 1], doc, t); }
  }

  /** The row appended for a document links to that document's newest row exactly when its label allows it. */
  lemma {:induction false} AppendedLinks(entries: seq<Fields>, f: Fields)
    ensures var rows := Created(entries);
            var all, labels := Matching(rows, f.documentId, None), Labels(entries, f.documentId);
            Head(Matching(rows, f.documentId, f.tenant)) == Head(all)
            <==> f.tenant.None? || labels == [] || labels[|labels| - 1] == f.tenant
  {
    var rows := Created(entries);
    var all, labels := Matching(rows, f.documentId, None), Labels(entries, f.documentId);
    LabelsAreTenants(entries, f.documentId);
    CreatedRowsMatch(entries, f.documentId, None);
    CreatedRowsMatch(entries, f.documentId, f.tenant);
    if f.tenant.Some? {
      NewestOfTenant(rows, f.documentId, f.tenant.value);
      NoRowsNoMatch(rows, f.documentId, f.tenant);
    }
  }

  lemma {:induction false} NoRowsNoMatch(rows: seq<Row>, doc: int, tenant: Option<int>)
    ensures Matching(rows, doc, None) == [] ==> Matching(rows, doc, tenant) == []
  {
    if rows != [] { NoRowsNoMatch(rows[..|rows| - 1], doc, tenant); }
  }

  lemma {:induction false} ChainedOneMore(all: seq<Row>, row: Row, previous: Digest<Fields>)
    requires row.previous == Some(previous) && row.integrity == Some(Sha(row.fields, previous))
    ensures Chained(all + [row]) <==> Chained(all) && previous == Head(all)
  {
    assert (all + [row])[..|all|] == all;
  }

  lemma {:induction false} MatchingOneMore(rows: seq<Row>, row: Row, doc: int, tenant: Option<int>)
    ensures Matching(rows + [row], doc, tenant)
         == Matching(rows, doc, tenant)
            + if IsMatch(row, doc, tenant) then [row] else []
  {
    assert (rows + [row])[..|rows|] == rows;
  }

  /** One more creation keeps the document's chain exactly when its label follows. */
  lemma {:induction false} CreationKeepsChainIff(older: seq<Fields>, f: Fields)
    ensures var rows := Created(older);
            Chained(Matching(Create(rows, f), f.documentId, None))
            <==> Chained(Matching(rows, f.documentId, None))
                 && (f.tenant.None? || Labels(older, f.documentId) == []
                     || Labels(older, f.documentId)[|Labels(older, f.documentId)| - 1] == f.tenant)
  {
    var rows := Created(older);
    var previous := Head(Matching(rows, f.documentId, f.tenant));
    var row := RowOf(f, previous);
    MatchingOneMore(rows, row, f.documentId, None);
    ChainedOneMore(Matching(rows, f.documentId, None), row, previous);
    AppendedLinks(older, f);
  }

  /**
   Verifying a document across tenants is a different matter: it succeeds if and only if no row with
   a tenant follows a row of the same document created under another label, because each creation
   looks up its predecessor among its own tenant's rows only.
   */
  lemma {:induction false} UnfilteredChainVerifiesIff(entries: seq<Fields>, doc: int)
    ensures Chained(Matching(Created(entries), doc, None)) <==> SwitchesOnlyToNone(Labels(entries, doc))
  {
    if entries != [] {
      var older, f := entries[..|entries| - 1], entries[|entries| - 1];
      UnfilteredChainVerifiesIff(older, doc);
      if f.documentId == doc {
        CreationKeepsChainIff(older, f);
        AppendedLabel(Labels(older, doc), f.tenant);
      } else {
        MatchingOneMore(Created(older), Created(entries)[|Created(older)|], doc, None);
      }
    }
  }

  lemma {:induction false} AppendedLabel(labels: seq<Option<int>>, last: Option<int>)
    ensures SwitchesOnlyToNone(labels + [last])
       <==> SwitchesOnlyToNone(labels) && (last.None? || labels == [] || labels[|labels| - 1] == last)
  {
    var more := labels + [last];
    if SwitchesOnlyToNone(more) {
      forall i | 0 < i < |labels| ensures labels[i].None? || labels[i] == labels[i - 1] {
        assert more[i] == labels[i] && more[i - 1] == labels[i - 1];
      }
      if labels != [] { assert more[|labels|].None? || more[|labels|] == more[|labels| - 1]; }
    }
  }

  /** One document audited under two tenants: each tenant's chain verifies, the document's does not. */
  lemma {:induction false} TwoTenantsBreakTheDocument(f: Fields, g: Fields)
    requires f.documentId == g.documentId && f.tenant == Some(1) && g.tenant == Some(2)
    ensures Chained(Matching(Created([f, g]), f.documentId, Some(1)))
    ensures Chained(Matching(Created([f, g]), f.documentId, Some(2)))
    ensures !Chained(Matching(Created([f, g]), f.documentId, None))
  {
    TenantChainVerifies([f, g], f.documentId, 1);
    TenantChainVerifies([f, g], f.documentId, 2);
    UnfilteredChainVerifiesIff([f, g], f.documentId);
    LabelsOfTwo(f, g);
    assert [Some(1), Some(2)][1] != [Some(1), Some(2)][0];
  }

  lemma {:induction false} LabelsOfTwo(f: Fields, g: Fields)
    requires f.documentId == g.documentId
    ensures Labels([f, g], f.documentId) == [f.tenant, g.tenant]
  {
    assert [f, g][..1] == [f] && [f][..0] == [];
    assert Labels([], f.documentId) == [];
    assert Labels([f], f.documentId) == [f.tenant];
  }

  // ---------------------------------------------------------------- what the chain protects

  /** The rows carry the fields that they were created with, in order. */
  lemma {:induction false} RowsCarryTheirEntries(entries: seq<Fields>, i: nat)
    requires i < |entries|
    ensures |Created(entries)| == |entries| && Created(entries)[i].fields == entries[i]
  {
    var n := |entries| - 1;
    AsManyRows(entries[..n]);
    if i < n { RowsCarryTheirEntries(entries[..n], i); }
  }

  lemma {:induction false} AsManyRows(entries: seq<Fields>)
    ensures |Created(entries)| == |entries|
  {
    if entries != [] { AsManyRows(entries[..|entries| - 1]); }
  }

  /** A row of a chain whose fields are altered in any way, with its hash columns kept, is the first bad one. */
  lemma {:induction false} AlteredRowIsReported(chain: seq<Row>, i: nat, f: Fields)
    requires Chained(chain) && i < |chain| && f != chain[i].fields
    ensures var altered := chain[i := chain[i].(fields := f)];
            && Chained(altered[..i]) && !Chained(altered[..i + 1]) && !Chained(altered)
            && altered[i].previous == Some(Head(altered[..i]))
  {
    var altered := chain[i := chain[i].(fields := f)];
    BlockAt(chain, i);
    ChainedPrefix(chain, i);
    assert altered[..i] == chain[..i] && altered[..i + 1][..i] == chain[..i];
    NotChainedFrom(altered, i + 1);
  }

  lemma {:induction false} ShorterIsChained(chain: seq<Row>, k: nat, n: nat)
    requires k <= n <= |chain| && Chained(chain[..n])
    ensures Chained(chain[..k])
  {
    ChainedPrefix(chain[..n], k);
    assert chain[..n][..k] == chain[..k];
  }

  /** Where the chain breaks first is where the verification stops. */
  lemma {:induction false} FirstBadRowIsUnique(chain: seq<Row>, m: nat, n: nat)
    requires m < |chain| && n < |chain|
    requires Chained(chain[..m]) && !Chained(chain[..m + 1]) && Chained(chain[..n]) && !Chained(chain[..n + 1])
    ensures m == n
  {
    if m < n { ShorterIsChained(chain, m + 1, n); }
    if n < m { ShorterIsChained(chain, n + 1, m); }
  }
}
