/**
 Redaction of one page (document_processing/intelligence.py): the findings are spliced out from right
 to left, so that the offsets of the findings still to come stay valid.
 */
module PageRedaction {

  /** A span of the page, with the text its action puts in its place. */
  datatype Finding = Finding(start: nat, end: nat, entity: string, confidence: real, replacement: string)

  // ---------------------------------------------------------------- one simultaneous substitution

  /** Left to right, from position `from` on, without overlaps. */
  predicate Ordered(text: string, findings: seq<Finding>, from: nat) {
    if findings == [] then from <= |text|
    else from <= findings[0].start <= findings[0].end && Ordered(text, findings[1..], findings[0].end)
  }

  /** The reference: one pass over the original text. */
  function Substitute(text: string, findings: seq<Finding>, from: nat): string
    requires Ordered(text, findings, from)
  {
    if findings == [] then text[from..]
    else
      OrderedEnd(text, findings, from);
      text[from..findings[0].start] + findings[0].replacement + Substitute(text, findings[1..], findings[0].end)
  }

  lemma {:induction false} OrderedEnd(text: string, findings: seq<Finding>, from: nat)
    requires Ordered(text, findings, from)
    ensures from <= |text| && (findings != [] ==> findings[0].end <= |text|)
    decreases |findings|
  {
    if findings != [] { OrderedEnd(text, findings[1..], findings[0].end); }
  }

  /** The pass can start anywhere up to the first finding. */
  lemma {:induction false} OrderedFromIff(text: string, findings: seq<Finding>, from: nat)
    ensures Ordered(text, findings, from)
       <==> Ordered(text, findings, 0) && from <= |text| && (findings != [] ==> from <= findings[0].start)
  {
    if Ordered(text, findings, from) { OrderedEnd(text, findings, from); }
  }

  lemma {:induction false} ConcatFour(a: string, b: string, c: string, d: string)
    ensures a + b + c + d == a + (b + c + d)
  {
  }

  /** Text before the first finding is copied, so the start of the pass can move across it. */
  lemma {:induction false} SubstituteFrom(text: string, findings: seq<Finding>, from: nat, mid: nat)
    requires Ordered(text, findings, from) && from <= mid <= |text| && (findings != [] ==> mid <= findings[0].start)
    ensures Ordered(text, findings, mid)
    ensures Substitute(text, findings, from) == text[from..mid] + Substitute(text, findings, mid)
  {
    if findings == [] {
      assert text[from..] == text[from..mid] + text[mid..];
    } else {
      OrderedEnd(text, findings, from);
      var f := findings[0];
      assert text[from..f.start] == text[from..mid] + text[mid..f.start];
      ConcatFour(text[from..mid], text[mid..f.start], f.replacement, Substitute(text, findings[1..], f.end));
    }
  }

  // ---------------------------------------------------------------- splicing

  /** `text[:n]` and `text[n:]` for any n. */
  function Front(text: string, n: nat): string { if n <= |text| then text[..n] else text }
  function Back(text: string, n: nat): string { if n <= |text| then text[n..] else "" }

  function Splice(text: string, f: Finding): string { Front(text, f.start) + f.replacement + Back(text, f.end) }

  function SpliceEach(text: string, findings: seq<Finding>): string {
    if findings == [] then text
    else Splice(SpliceEach(text, findings[..|findings| - 1]), findings[|findings| - 1])
  }

  /** Splicing a finding into the text already redacted to its right is the pass that includes it. */
  lemma {:induction false} SpliceExtends(text: string, f: Finding, rest: seq<Finding>)
    requires Ordered(text, [f] + rest, 0)
    ensures Ordered(text, rest, 0)
    ensures Splice(Substitute(text, rest, 0), f) == Substitute(text, [f] + rest, 0)
  {
    assert ([f] + rest)[1..] == rest;
    OrderedEnd(text, [f] + rest, 0);
    OrderedFromIff(text, rest, f.end);
    SubstituteFrom(text, rest, 0, f.end);
    var done := Substitute(text, rest, 0);
    assert done[..f.start] == text[0..f.start];
    assert done[f.end..] == Substitute(text, rest, f.end);
  }

  function Reversed<T>(s: seq<T>): (r: seq<T>)
    ensures |r| == |s| && forall i :: 0 <= i < |s| ==> r[i] == s[|s| - 1 - i]
  {
    seq(|s|, i requires 0 <= i < |s| => s[|s| - 1 - i])
  }

  lemma {:induction false} ReversedOneMore<T>(s: seq<T>)
    requires s != []
    ensures Reversed(s) == [s[|s| - 1]] + Reversed(s[..|s| - 1])
  {
  }

  /** Splicing from right to left is the simultaneous substitution whenever the findings are in order. */
  lemma {:induction false} SplicingIsSubstitution(text: string, down: seq<Finding>)
    requires Ordered(text, Reversed(down), 0)
    ensures SpliceEach(text, down) == Substitute(text, Reversed(down), 0)
  {
    if down != [] {
      var n := |down| - 1;
      ReversedOneMore(down);
      SpliceExtends(text, down[n], Reversed(down[..n]));
      SplicingIsSubstitution(text, down[..n]);
    }
  }

  // ---------------------------------------------------------------- the page

  /** Behind every finding that starts no earlier. */
  function Insert(down: seq<Finding>, f: Finding): seq<Finding> {
    if down == [] then [f]
    else
      var n := |down| - 1;
      if down[n].start >= f.start then down + [f] else Insert(down[..n], f) + [down[n]]
  }

  /** `sorted(findings, key=start, reverse=True)`, which is stable. */
  function SortDown(findings: seq<Finding>): seq<Finding> {
    if findings == [] then []
    else Insert(SortDown(findings[..|findings| - 1]), findings[|findings| - 1])
  }

  predicate Fits(text: string, f: Finding) { f.start <= f.end <= |text| }

  predicate Fitting(text: string, findings: seq<Finding>) {
    forall i :: 0 <= i < |findings| ==> Fits(text, findings[i])
  }

  /** The later of two findings on a page ends before the earlier starts, or the other way round. */
  predicate Settled(a: Finding, b: Finding) {
    if a.start >= b.start then b.end <= a.start else a.end <= b.start
  }

  /** No two findings overlap, and of two that start together the later in the list is empty. */
  predicate Compatible(findings: seq<Finding>) {
    forall i, j :: 0 <= i < j < |findings| ==> Settled(findings[i], findings[j])
  }

  lemma {:induction false} SpliceOneMore(text: string, down: seq<Finding>, n: nat)
    requires n < |down|
    ensures SpliceEach(text, down[..n + 1]) == Splice(SpliceEach(text, down[..n]), down[n])
  {
    assert down[..n + 1][..n] == down[..n];
  }

  /** The loop of the page. */
  method SpliceAll(text: string, down: seq<Finding>) returns (redacted: string, metadata: seq<Finding>)
    ensures redacted == SpliceEach(text, down) && metadata == down
  {
    redacted := text;
    metadata := [];
    for n := 0 to |down|
      invariant metadata == down[..n] && redacted == SpliceEach(text, down[..n])
    {
      SpliceOneMore(text, down, n);
      redacted := Front(redacted, down[n].start) + down[n].replacement + Back(redacted, down[n].end);
      metadata := metadata + [down[n]];
    }
    assert down[..|down|] == down;
  }

  /**
   The page for any findings: sorted and spliced from right to left, with the metadata by ascending offset.  For
   findings that fit the text and one another this is the simultaneous substitution.
   */
  method RedactPage(text: string, findings: seq<Finding>) returns (redacted: string, metadata: seq<Finding>)
    ensures metadata == Reversed(SortDown(findings)) && redacted == SpliceEach(text, SortDown(findings))
    ensures multiset(metadata) == multiset(findings)
    ensures forall i, j :: 0 <= i < j < |metadata| ==> metadata[i].start <= metadata[j].start
    ensures Fitting(text, findings) && Compatible(findings) ==>
              Ordered(text, metadata, 0) && redacted == Substitute(text, metadata, 0)
  {
    redacted, metadata := SpliceAll(text, SortDown(findings));
    metadata := Reversed(metadata);
    MetadataIsAscending(findings);
    PageIsSubstitution(text, findings);
  }

  // ---------------------------------------------------------------- when the findings come out in order

  predicate Descending(down: seq<Finding>) {
    forall i, j :: 0 <= i < j < |down| ==> down[i].start >= down[j].start
  }

  predicate RightToLeft(down: seq<Finding>) {
    forall i, j :: 0 <= i < j < |down| ==> down[j].end <= down[i].start
  }

  /** How many findings stay in front of an inserted one. */
  function Place(down: seq<Finding>, f: Finding): (at: nat)
    ensures at <= |down|
  {
    if down == [] then 0
    else if down[|down| - 1].start >= f.start then |down| else Place(down[..|down| - 1], f)
  }

  lemma {:induction false} InsertAtPlace(down: seq<Finding>, f: Finding)
    ensures Insert(down, f) == down[..Place(down, f)] + [f] + down[Place(down, f)..]
  {
    if down != [] && down[|down| - 1].start < f.start {
      var n := |down| - 1;
      InsertAtPlace(down[..n], f);
      assert down[..n][..Place(down, f)] == down[..Place(down, f)];
      assert down[..n][Place(down, f)..] + [down[n]] == down[Place(down, f)..];
    }
  }

  lemma {:induction false} PlaceSplits(down: seq<Finding>, f: Finding)
    requires Descending(down)
    ensures forall i :: 0 <= i < |down| ==> (i < Place(down, f) <==> down[i].start >= f.start)
  {
    if down != [] && down[|down| - 1].start < f.start {
      PlaceSplits(down[..|down| - 1], f);
    }
  }

  lemma {:induction false} InsertKeepsDescending(down: seq<Finding>, f: Finding)
    requires Descending(down)
    ensures Descending(Insert(down, f))
  {
    InsertAtPlace(down, f);
    PlaceSplits(down, f);
  }

  lemma {:induction false} SortIsDescending(findings: seq<Finding>)
    ensures Descending(SortDown(findings))
  {
    if findings != [] {
      SortIsDescending(findings[..|findings| - 1]);
      InsertKeepsDescending(SortDown(findings[..|findings| - 1]), findings[|findings| - 1]);
    }
  }

  lemma {:induction false} InsertAdds(down: seq<Finding>, f: Finding)
    ensures multiset(Insert(down, f)) == multiset(down) + multiset{f}
  {
    InsertAtPlace(down, f);
    assert down == down[..Place(down, f)] + down[Place(down, f)..];
  }

  lemma {:induction false} MultisetOneMore(findings: seq<Finding>, n: nat)
    requires |findings| == n + 1
    ensures multiset(findings) == multiset(findings[..n]) + multiset{findings[n]}
  {
    assert findings == findings[..n] + [findings[n]];
  }

  lemma {:induction false} SortIsPermutation(findings: seq<Finding>)
    ensures multiset(SortDown(findings)) == multiset(findings)
  {
    if findings != [] {
      var n := |findings| - 1;
      SortIsPermutation(findings[..n]);
      InsertAdds(SortDown(findings[..n]), findings[n]);
      MultisetOneMore(findings, n);
    }
  }

  /** A finding between two parts: it lies left of all in front of it and right of all behind it. */
  predicate Between(a: seq<Finding>, f: Finding, b: seq<Finding>) {
    && (forall i :: 0 <= i < |a| ==> f.end <= a[i].start)
    && (forall i :: 0 <= i < |b| ==> b[i].end <= f.start)
  }

  lemma {:induction false} WithoutMiddle(a: seq<Finding>, f: Finding, b: seq<Finding>)
    requires RightToLeft(a + [f] + b)
    ensures RightToLeft(a + b) && Between(a, f, b)
  {
    var all, n := a + [f] + b, |a|;
    assert all[n] == f;
    forall i | 0 <= i < n ensures f.end <= a[i].start { assert all[i] == a[i]; }
    forall i | 0 <= i < |b| ensures b[i].end <= f.start { assert all[n + 1 + i] == b[i]; }
    forall i, j | 0 <= i < j < |a + b| ensures (a + b)[j].end <= (a + b)[i].start {
      assert (a + b)[i] == all[if i < n then i else i + 1] && (a + b)[j] == all[if j < n then j else j + 1];
    }
  }

  lemma {:induction false} WithMiddle(a: seq<Finding>, f: Finding, b: seq<Finding>)
    requires RightToLeft(a + b) && Between(a, f, b)
    ensures RightToLeft(a + [f] + b)
  {
    var all, n := a + [f] + b, |a|;
    forall i, j | 0 <= i < j < |all| ensures all[j].end <= all[i].start {
      if i == n {
        assert all[j] == b[j - n - 1];
      } else if j == n {
        assert all[i] == a[i];
      } else {
        assert all[i] == (a + b)[if i < n then i else i - 1] && all[j] == (a + b)[if j < n then j else j - 1];
      }
    }
  }

  lemma {:induction false} BetweenIsSettled(down: seq<Finding>, f: Finding)
    requires Descending(down)
    ensures Between(down[..Place(down, f)], f, down[Place(down, f)..])
       <==> forall i :: 0 <= i < |down| ==> Settled(down[i], f)
  {
    var at := Place(down, f);
    PlaceSplits(down, f);
    if Between(down[..at], f, down[at..]) {
      forall i | 0 <= i < |down| ensures Settled(down[i], f) {
        if i < at { assert down[..at][i] == down[i]; } else { assert down[at..][i - at] == down[i]; }
      }
    }
  }

  lemma {:induction false} InsertRightToLeftIff(down: seq<Finding>, f: Finding)
    requires Descending(down)
    ensures RightToLeft(Insert(down, f))
       <==> RightToLeft(down) && forall i :: 0 <= i < |down| ==> Settled(down[i], f)
  {
    var a, b := down[..Place(down, f)], down[Place(down, f)..];
    InsertAtPlace(down, f);
    BetweenIsSettled(down, f);
    assert a + b == down;
    if RightToLeft(a + [f] + b) {
      WithoutMiddle(a, f, b);
    } else if RightToLeft(down) && Between(a, f, b) {
      WithMiddle(a, f, b);
      assert false;
    }
  }

  lemma {:induction false} SettledForAll(a: seq<Finding>, b: seq<Finding>, f: Finding)
    requires multiset(a) == multiset(b)
    requires forall i :: 0 <= i < |a| ==> Settled(a[i], f)
    ensures forall i :: 0 <= i < |b| ==> Settled(b[i], f)
  {
    forall i | 0 <= i < |b| ensures Settled(b[i], f) { assert b[i] in multiset(a); }
  }

  lemma {:induction false} CompatibleOneMore(findings: seq<Finding>, f: Finding)
    ensures Compatible(findings + [f])
       <==> Compatible(findings) && forall i :: 0 <= i < |findings| ==> Settled(findings[i], f)
  {
    var all := findings + [f];
    assert all[|findings|] == f;
    assert forall i :: 0 <= i < |findings| ==> all[i] == findings[i];
    if Compatible(all) {
      forall i | 0 <= i < |findings| ensures Settled(findings[i], f) { assert Settled(all[i], all[|findings|]); }
      forall i, j | 0 <= i < j < |findings| ensures Settled(findings[i], findings[j]) {
        assert Settled(all[i], all[j]);
      }
    }
  }

  lemma {:induction false} SortedRightToLeftIff(findings: seq<Finding>)
    ensures RightToLeft(SortDown(findings)) <==> Compatible(findings)
  {
    if findings != [] {
      var n := |findings| - 1;
      var front, f := findings[..n], findings[n];
      var down := SortDown(front);
      SortedRightToLeftIff(front);
      SortIsDescending(front);
      InsertRightToLeftIff(down, f);
      SortIsPermutation(front);
      CompatibleOneMore(front, f);
      assert findings == front + [f];
      if forall i :: 0 <= i < n ==> Settled(front[i], f) { SettledForAll(front, down, f); }
      if forall i :: 0 <= i < |down| ==> Settled(down[i], f) { SettledForAll(down, front, f); }
    }
  }

  lemma {:induction false} LastIsLeftmost(text: string, down: seq<Finding>, n: nat)
    requires |down| == n + 1 && Fitting(text, down)
    ensures RightToLeft(down) <==> RightToLeft(down[..n]) && (n > 0 ==> down[n].end <= down[n - 1].start)
  {
    if RightToLeft(down[..n]) && (n > 0 ==> down[n].end <= down[n - 1].start) {
      forall i | 0 <= i < n ensures down[n].end <= down[i].start {
        if i < n - 1 {
          assert down[..n][n - 1].end <= down[..n][i].start;
          assert Fits(text, down[n - 1]);
        }
      }
      forall i, j | 0 <= i < j < n ensures down[j].end <= down[i].start {
        assert down[..n][j].end <= down[..n][i].start;
      }
    }
  }

  lemma {:induction false} OrderedIsRightToLeft(text: string, down: seq<Finding>)
    ensures Ordered(text, Reversed(down), 0) <==> Fitting(text, down) && RightToLeft(down)
  {
    if down != [] {
      var n := |down| - 1;
      var rest := Reversed(down[..n]);
      OrderedIsRightToLeft(text, down[..n]);
      ReversedOneMore(down);
      assert Reversed(down)[1..] == rest;
      OrderedFromIff(text, rest, down[n].end);
      assert n > 0 ==> rest[0] == down[n - 1];
      assert Fitting(text, down) <==> Fitting(text, down[..n]) && Fits(text, down[n]);
      if Fitting(text, down) { LastIsLeftmost(text, down, n); }
    }
  }

  lemma {:induction false} FittingOfPermutation(text: string, a: seq<Finding>, b: seq<Finding>)
    requires multiset(a) == multiset(b) && Fitting(text, a)
    ensures Fitting(text, b)
  {
    forall i | 0 <= i < |b| ensures Fits(text, b[i]) { assert b[i] in multiset(a); }
  }

  /** The sorted findings are in order if and only if they fit the text and one another. */
  lemma {:induction false} OrderedIff(text: string, findings: seq<Finding>)
    ensures Ordered(text, Reversed(SortDown(findings)), 0) <==> Fitting(text, findings) && Compatible(findings)
  {
    var down := SortDown(findings);
    OrderedIsRightToLeft(text, down);
    SortedRightToLeftIff(findings);
    SortIsPermutation(findings);
    if Fitting(text, findings) { FittingOfPermutation(text, findings, down); }
    if Fitting(text, down) { FittingOfPermutation(text, down, findings); }
  }

  lemma {:induction false} PageIsSubstitution(text: string, findings: seq<Finding>)
    ensures Fitting(text, findings) && Compatible(findings) ==>
              && Ordered(text, Reversed(SortDown(findings)), 0)
              && SpliceEach(text, SortDown(findings)) == Substitute(text, Reversed(SortDown(findings)), 0)
  {
    OrderedIff(text, findings);
    if Fitting(text, findings) && Compatible(findings) { SplicingIsSubstitution(text, SortDown(findings)); }
  }

  // ---------------------------------------------------------------- what the pass keeps

  lemma {:induction false} OrderedAreApart(text: string, a: seq<Finding>, from: nat, i: nat)
    requires Ordered(text, a, from) && i < |a|
    ensures from <= a[i].start && (i > 0 ==> a[0].end <= a[i].start)
    decreases |a|
  {
    if i > 0 { OrderedAreApart(text, a[1..], a[0].end, i - 1); }
  }

  lemma {:induction false} SameFirst(text: string, a: seq<Finding>, b: seq<Finding>, from: nat)
    requires a != [] && Ordered(text, a, from) && Ordered(text, b, from) && multiset(a) == multiset(b)
    requires forall f :: f in a ==> f.start < f.end
    ensures b != [] && a[0] == b[0]
  {
    assert a[0] in multiset(b);
    assert b[0] in multiset(a);
    var i :| 0 <= i < |b| && b[i] == a[0];
    var j :| 0 <= j < |a| && a[j] == b[0];
    OrderedAreApart(text, b, from, i);
    OrderedAreApart(text, a, from, j);
  }

  lemma {:induction false} SameRest(a: seq<Finding>, b: seq<Finding>)
    requires a != [] && b != [] && a[0] == b[0] && multiset(a) == multiset(b)
    ensures multiset(a[1..]) == multiset(b[1..])
  {
    assert a == [a[0]] + a[1..] && b == [b[0]] + b[1..];
    assert multiset(a[1..]) == multiset(a) - multiset{a[0]};
    assert multiset(b[1..]) == multiset(b) - multiset{b[0]};
  }

  /** Findings with text determine their order, so the redacted page does not depend on the order they were found in. */
  lemma {:induction false} OrderIsUnique(text: string, a: seq<Finding>, b: seq<Finding>, from: nat)
    requires Ordered(text, a, from) && Ordered(text, b, from) && multiset(a) == multiset(b)
    requires forall f :: f in a ==> f.start < f.end
    ensures a == b
    decreases |a|
  {
    if a == [] {
      assert |multiset(b)| == |b|;
    } else {
      SameFirst(text, a, b, from);
      SameRest(a, b);
      OrderIsUnique(text, a[1..], b[1..], a[0].end);
      assert a == [a[0]] + a[1..] && b == [b[0]] + b[1..];
    }
  }

  predicate Outside(findings: seq<Finding>, p: nat) {
    forall i :: 0 <= i < |findings| ==> p < findings[i].start || findings[i].end <= p
  }

  /** Where the character at position p of the original text ends up, counted from the start of the pass. */
  function NewPosition(findings: seq<Finding>, from: nat, p: nat): int {
    if findings == [] || p < findings[0].end then p - from
    else findings[0].start - from + |findings[0].replacement| + NewPosition(findings[1..], findings[0].end, p)
  }

  lemma {:induction false} OutsideRest(findings: seq<Finding>, p: nat)
    requires findings != [] && Outside(findings, p)
    ensures Outside(findings[1..], p) && (p < findings[0].start || findings[0].end <= p)
  {
    forall i | 0 <= i < |findings[1..]| ensures p < findings[1..][i].start || findings[1..][i].end <= p {
      assert findings[1..][i] == findings[i + 1];
    }
  }

  lemma {:induction false} SubstituteUnfolds(text: string, findings: seq<Finding>, from: nat)
    requires findings != [] && Ordered(text, findings, from)
    ensures from <= findings[0].start <= |text| && Ordered(text, findings[1..], findings[0].end)
    ensures Substitute(text, findings, from)
         == text[from..findings[0].start] + findings[0].replacement + Substitute(text, findings[1..], findings[0].end)
  {
    OrderedEnd(text, findings, from);
  }

  /** A character of the copied front, or of the rest behind the replacement. */
  lemma {:induction false} KeptAt(before: string, replacement: string, rest: string, i: nat, j: nat)
    ensures i < |before| ==> (before + replacement + rest)[i] == before[i]
    ensures j < |rest| ==> (before + replacement + rest)[|before| + |replacement| + j] == rest[j]
  {
  }

  /** The character at p of the original text is found at `place` of the redacted one. */
  predicate FoundAt(text: string, findings: seq<Finding>, from: nat, p: nat, place: int)
    requires Ordered(text, findings, from) && p < |text|
  {
    0 <= place < |Substitute(text, findings, from)| && Substitute(text, findings, from)[place] == text[p]
  }

  lemma {:induction false} FoundBefore(text: string, findings: seq<Finding>, from: nat, p: nat)
    requires findings != [] && Ordered(text, findings, from) && from <= p < findings[0].start && p < |text|
    ensures FoundAt(text, findings, from, p, p - from)
  {
    var f := findings[0];
    SubstituteUnfolds(text, findings, from);
    KeptAt(text[from..f.start], f.replacement, Substitute(text, findings[1..], f.end), p - from, 0);
  }

  lemma {:induction false} FoundBehind(text: string, findings: seq<Finding>, from: nat, p: nat, at: nat)
    requires findings != [] && Ordered(text, findings, from) && p < |text|
    requires Ordered(text, findings[1..], findings[0].end) && FoundAt(text, findings[1..], findings[0].end, p, at)
    ensures FoundAt(text, findings, from, p, findings[0].start - from + |findings[0].replacement| + at)
  {
    var f := findings[0];
    SubstituteUnfolds(text, findings, from);
    KeptAt(text[from..f.start], f.replacement, Substitute(text, findings[1..], f.end), 0, at);
  }

  lemma {:induction false} FoundWithoutFindings(text: string, from: nat, p: nat)
    requires from <= p < |text|
    ensures FoundAt(text, [], from, p, p - from)
  {
  }

  /** Every character outside the findings is kept, at its computed place. */
  lemma {:induction false} OutsideIsKept(text: string, findings: seq<Finding>, from: nat, p: nat)
    requires Ordered(text, findings, from) && from <= p < |text| && Outside(findings, p)
    ensures FoundAt(text, findings, from, p, NewPosition(findings, from, p))
    decreases |findings|
  {
    if findings == [] {
      FoundWithoutFindings(text, from, p);
    } else {
      OutsideRest(findings, p);
      if p >= findings[0].end {
        OutsideIsKept(text, findings[1..], findings[0].end, p);
        FoundBehind(text, findings, from, p, NewPosition(findings[1..], findings[0].end, p));
      } else {
        FoundBefore(text, findings, from, p);
      }
    }
  }

  /** Kept characters stay in order. */
  lemma {:induction false} OutsideStaysInOrder(text: string, findings: seq<Finding>, from: nat, p: nat, q: nat)
    requires Ordered(text, findings, from) && from <= p < q < |text| && Outside(findings, p) && Outside(findings, q)
    ensures NewPosition(findings, from, p) < NewPosition(findings, from, q)
    decreases |findings|
  {
    if findings != [] && q >= findings[0].end {
      var rest := findings[1..];
      OutsideRest(findings, p);
      OutsideRest(findings, q);
      OrderedEnd(text, findings, from);
      if p >= findings[0].end {
        OutsideStaysInOrder(text, rest, findings[0].end, p, q);
      } else {
        assert p < findings[0].start;
        OutsideIsKept(text, rest, findings[0].end, q);
      }
    }
  }

  // ---------------------------------------------------------------- where the replacements go

  /** By how much the first n findings move the text behind them. */
  function Shift(findings: seq<Finding>, n: nat): int
    requires n <= |findings|
  {
    if n == 0 then 0
    else |findings[0].replacement| - (findings[0].end - findings[0].start) + Shift(findings[1..], n - 1)
  }

  predicate ShowsAt(text: string, part: string, at: int) { 0 <= at <= |text| - |part| && text[at..at + |part|] == part }

  lemma {:induction false} ShowsBehind(a: string, b: string, part: string, at: int)
    requires ShowsAt(b, part, at)
    ensures ShowsAt(a + b, part, |a| + at)
  {
    assert (a + b)[|a| + at..|a| + at + |part|] == b[at..at + |part|];
  }

  lemma {:induction false} ShowsBetween(a: string, part: string, c: string)
    ensures ShowsAt(a + part + c, part, |a|)
  {
  }

  /** Every replacement stands in the redacted text where its finding stood, moved by those in front of it. */
  lemma {:induction false} ReplacementIsPlaced(text: string, findings: seq<Finding>, from: nat, i: nat)
    requires Ordered(text, findings, from) && i < |findings|
    ensures ShowsAt(Substitute(text, findings, from), findings[i].replacement,
                    findings[i].start - from + Shift(findings, i))
    decreases |findings|
  {
    var f := findings[0];
    SubstituteUnfolds(text, findings, from);
    var front, rest := text[from..f.start], Substitute(text, findings[1..], f.end);
    if i == 0 {
      ShowsBetween(front, f.replacement, rest);
    } else {
      ReplacementIsPlaced(text, findings[1..], f.end, i - 1);
      ShowsBehind(front + f.replacement, rest, findings[i].replacement,
                  findings[i].start - f.end + Shift(findings[1..], i - 1));
    }
  }

  /** The redacted text is longer than the text by what the replacements are longer than their findings. */
  lemma {:induction false} RedactedLength(text: string, findings: seq<Finding>, from: nat)
    requires Ordered(text, findings, from)
    ensures |Substitute(text, findings, from)| == |text| - from + Shift(findings, |findings|)
    decreases |findings|
  {
    if findings != [] {
      SubstituteUnfolds(text, findings, from);
      RedactedLength(text, findings[1..], findings[0].end);
    } else {
      OrderedEnd(text, findings, from);
    }
  }

  lemma {:induction false} ReversedIsPermutation<T>(s: seq<T>)
    ensures multiset(Reversed(s)) == multiset(s)
  {
    if s != [] {
      ReversedOneMore(s);
      ReversedIsPermutation(s[..|s| - 1]);
      assert s == s[..|s| - 1] + [s[|s| - 1]];
    }
  }

  /** The metadata lists all findings, by ascending start. */
  lemma {:induction false} MetadataIsAscending(findings: seq<Finding>)
    ensures var metadata := Reversed(SortDown(findings));
            && multiset(metadata) == multiset(findings)
            && forall i, j :: 0 <= i < j < |metadata| ==> metadata[i].start <= metadata[j].start
  {
    SortIsPermutation(findings);
    ReversedIsPermutation(SortDown(findings));
    SortIsDescending(findings);
  }
}
