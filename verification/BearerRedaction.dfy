/**
 The streaming redactor (redaction.py) over a full-text redactor for bearer tokens: the word "bearer" in either case, a
 blank and letters.  Such a secret may hold no digit at all, so only the hints of the scan guard it.
 */
module BearerRedaction {
  import opened Options
  import opened StreamRedaction
  import opened MatchRedaction

  const WORD: string := "bearer"

  predicate IsLetter(c: char) { 'a' <= c <= 'z' || 'A' <= c <= 'Z' }

  /** The same letter in upper case. */
  function Upper(c: char): char {
    if 'a' <= c <= 'z' then (c as int - 32) as char else c
  }

  /** The word in either case, a blank, and n letters. */
  predicate IsBearer(s: string, n: nat) {
    && |s| == 7 + n && s[6] == ' '
    && (forall k :: 0 <= k < 6 ==> s[k] == WORD[k] || s[k] == Upper(WORD[k]))
    && forall k :: 7 <= k < 7 + n ==> IsLetter(s[k])
  }

  function Bearer(n: nat): Pattern { Pattern(s => IsBearer(s, n), 7 + n) }

  /** The word is among the hints, and the language lower-cases the letters of ASCII. */
  ghost predicate KnowsBearer(scan: Scan) {
    && WORD in scan.hints
    && forall c :: 'a' <= c <= 'z' ==> scan.lower(c) == [c] && scan.lower(Upper(c)) == [c]
  }

  lemma {:induction false} BearerIsRegular(n: nat)
    ensures Regular(Bearer(n))
  {
    forall s | IsBearer(s, n) ensures MARK !in s && s[0] !in REPLACEMENT {
      assert s[0] == 'b' || s[0] == 'B';
    }
  }

  lemma {:induction false} BearerTriggersScan(scan: Scan, s: string, n: nat)
    requires KnowsBearer(scan) && IsBearer(s, n)
    ensures NeedsScan(scan, s)
  {
    var k :| 0 <= k < |scan.hints| && scan.hints[k] == WORD;
    forall i | 0 <= i < 6 ensures scan.lower(s[0 + i]) == [WORD[i]] { assert 'a' <= WORD[i] <= 'z'; }
    assert Spells(scan, s, scan.hints[k], 0);
    NeedsScanIfSpelled(scan, s);
  }

  lemma {:induction false} BearerIsSound(scan: Scan, n: nat)
    requires KnowsBearer(scan)
    ensures Sound(EachRedactor(scan, Bearer(n)), 7 + n) && TriggersScan(scan, Bearer(n))
  {
    forall s | Bearer(n).matches(s) ensures NeedsScan(scan, s) { BearerTriggersScan(scan, s, n); }
    BearerIsRegular(n);
    PatternIsSound(scan, Bearer(n));
  }

  function Letters(n: nat): (s: string)
    ensures |s| == n && forall k :: 0 <= k < n ==> s[k] == 'x'
  {
    seq(n, _ => 'x')
  }

  /** Every chunking is safe, and equals redacting the text at once, if and only if the holdback is at least 6 + n. */
  lemma {:induction false} BearerStreamIsSafeIff(scan: Scan, n: nat, h: int)
    requires KnowsBearer(scan)
    ensures var p, r := Bearer(n), EachRedactor(scan, Bearer(n));
            && ((forall tokens :: Clean(r, Output(r, h, tokens))) <==> h >= 6 + n)
            && ((forall tokens :: Output(r, h, tokens) == RedactEach(p, Input(tokens))) <==> h >= 6 + n)
  {
    var id := "Bearer " + Letters(n);
    assert "Bearer "[6] == ' ' && IsBearer(id, n);
    BearerIsSound(scan, n);
    BearerIsRegular(n);
    StreamIsSafeIff(scan, Bearer(n), h, id);
    StreamIsOneShotIff(scan, Bearer(n), h, id);
  }

  /** With the shipped hints and the default holdback, tokens of up to 250 letters never come out, in any chunking. */
  lemma {:induction false} ShippedStreamHidesBearers(scan: Scan, n: nat, tokens: seq<Token>)
    requires KnowsBearer(scan) && scan.hints == HINTS && n <= 250
    ensures var r := EachRedactor(scan, Bearer(n)); Clean(r, Output(r, EffectiveHoldback(None, None), tokens))
  {
    BearerStreamIsSafeIff(scan, n, EffectiveHoldback(None, None));
  }
}
