/**
 The streaming redactor (redaction.py) over a full-text redactor for ddd-dd-dddd, which the scan's digit rule guards.
 */
module SsnRedaction {
  import opened Options
  import opened StreamRedaction
  import opened MatchRedaction

  predicate IsDigit(c: char) { '0' <= c <= '9' }

  /** The language's digits include those of ASCII. */
  ghost predicate KnowsDigits(scan: Scan) { forall c :: IsDigit(c) ==> scan.isDigit(c) }

  /** ddd-dd-dddd */
  predicate IsSsn(s: string) {
    |s| == 11 && s[3] == '-' && s[6] == '-'
    && forall k :: 0 <= k < 11 && k != 3 && k != 6 ==> IsDigit(s[k])
  }

  function Ssn(): Pattern { Pattern(s => IsSsn(s), 11) }

  function SsnRedactor(scan: Scan): Redactor { EachRedactor(scan, Ssn()) }

  lemma {:induction false} SsnIsRegular()
    ensures Regular(Ssn()) && Ssn().matches("123-45-6789")
  {
    forall s | IsSsn(s) ensures MARK !in s && s[0] !in REPLACEMENT { assert IsDigit(s[0]); }
  }

  /** Its last four characters already trigger the scan. */
  lemma {:induction false} SsnTriggersScan(scan: Scan, s: string)
    requires KnowsDigits(scan) && IsSsn(s)
    ensures NeedsScan(scan, s)
  {
    assert DigitsAt(scan, s, [7, 8, 9, 10]);
    NeedsScanIfSpelled(scan, s);
  }

  /** The contract is met by a real redactor, with identifiers of 11 characters, whatever the hints. */
  lemma {:induction false} SsnIsSound(scan: Scan)
    requires KnowsDigits(scan)
    ensures Sound(SsnRedactor(scan), 11) && TriggersScan(scan, Ssn())
  {
    forall s | Ssn().matches(s) ensures NeedsScan(scan, s) { SsnTriggersScan(scan, s); }
    SsnIsRegular();
    PatternIsSound(scan, Ssn());
  }

  /** Every chunking is safe, and equals redacting the text at once, if and only if the holdback is at least 10. */
  lemma {:induction false} SsnStreamIsSafeIff(scan: Scan, h: int)
    requires KnowsDigits(scan)
    ensures (forall tokens :: Clean(SsnRedactor(scan), Output(SsnRedactor(scan), h, tokens))) <==> h >= 10
    ensures (forall tokens :: Output(SsnRedactor(scan), h, tokens) == RedactEach(Ssn(), Input(tokens))) <==> h >= 10
  {
    SsnIsSound(scan);
    SsnIsRegular();
    StreamIsSafeIff(scan, Ssn(), h, "123-45-6789");
    StreamIsOneShotIff(scan, Ssn(), h, "123-45-6789");
  }

  /** With the program's own hints and its choice of holdback, only an explicit argument below 10 is unsafe. */
  lemma {:induction false} ShippedStreamIsSafeIff(scan: Scan, requested: Option<int>, configured: Option<int>)
    requires KnowsDigits(scan) && scan.hints == HINTS
    ensures (forall tokens ::
               Clean(SsnRedactor(scan), Output(SsnRedactor(scan), EffectiveHoldback(requested, configured), tokens)))
            <==> requested.None? || requested.value == 0 || requested.value >= 10
  {
    SsnStreamIsSafeIff(scan, EffectiveHoldback(requested, configured));
  }

  /** The pending text itself is not bounded by the holdback: here redaction shrinks it to the holdback, so it stays. */
  lemma {:induction false} PendingCanExceedHoldback(scan: Scan, id: string)
    requires KnowsDigits(scan) && IsSsn(id)
    ensures Run(SsnRedactor(scan), 10, [Chunk(id)]).pending == id && |id| > 10
  {
    var r := SsnRedactor(scan);
    assert [Chunk(id)][..0] == [];
    assert id[..11] == id && id[11..] == "" && "" + id == id;
    SsnTriggersScan(scan, id);
    assert RedactEach(Ssn(), "") == "" && RedactEach(Ssn(), id) == REPLACEMENT + "";
    assert |r.redact(id)| == 10;
    assert Run(r, 10, [Chunk(id)]) == Step(r, 10, Stream([], ""), Chunk(id))
        == Advance(r, 10, Stream([], ""), id, true);
  }
}
