/**
 Selection among overlapping findings (_dedupe in services/sensitive_data_detection.py), which every page's
 findings go through before they are spliced.
 */
module FindingSelection {
  import opened PageRedaction

  function Length(f: Finding): int { f.end - f.start }

  /** The sort key: by start, then the longer, then the more confident first. */
  predicate Precedes(a: Finding, b: Finding) {
    || a.start < b.start
    || (a.start == b.start && (Length(a) > Length(b) || (Length(a) == Length(b) && a.confidence >= b.confidence)))
  }

  /** Behind every finding that precedes it. */
  function InsertByKey(sorted: seq<Finding>, f: Finding): seq<Finding> {
    if sorted == [] then [f]
    else
      var n := |sorted| - 1;
      if Precedes(sorted[n], f) then sorted + [f] else InsertByKey(sorted[..n], f) + [sorted[n]]
  }

  /** The stable sort by key. */
  function SortByKey(findings: seq<Finding>): seq<Finding> {
    if findings == [] then []
    else InsertByKey(SortByKey(findings[..|findings| - 1]), findings[|findings| - 1])
  }

  predicate Overlap(a: Finding, b: Finding) { !(a.end <= b.start || a.start >= b.end) }

  function Overlaps(selected: seq<Finding>, f: Finding): seq<Finding> {
    if selected == [] then []
    else
      var last := selected[|selected| - 1];
      Overlaps(selected[..|selected| - 1], f) + if Overlap(f, last) then [last] else []
  }

  predicate Beats(a: Finding, b: Finding) {
    a.confidence > b.confidence || (a.confidence == b.confidence && Length(a) > Length(b))
  }

  /** `max` by confidence, then length: the first of the best. */
  method Best(candidates: seq<Finding>) returns (best: nat)
    requires candidates != []
    ensures best < |candidates|
    ensures forall i :: 0 <= i < |candidates| ==> !Beats(candidates[i], candidates[best])
    ensures forall i :: 0 <= i < best ==> Beats(candidates[best], candidates[i])
  {
    best := 0;
    for n := 1 to |candidates|
      invariant best < n
      invariant forall i :: 0 <= i < n ==> !Beats(candidates[i], candidates[best])
      invariant forall i :: 0 <= i < best ==> Beats(candidates[best], candidates[i])
    {
      if Beats(candidates[n], candidates[best]) { best := n; }
    }
  }

  /** `selected.remove(item)`: the first occurrence. */
  function Remove(selected: seq<Finding>, item: Finding): (r: seq<Finding>) {
    if selected == [] then []
    else if selected[0] == item then selected[1..]
    else [selected[0]] + Remove(selected[1..], item)
  }

  /** The overlapping findings other than the one in place `best` are removed, in order. */
  function RemoveOthers(selected: seq<Finding>, overlaps: seq<Finding>, best: nat): seq<Finding> {
    if overlaps == [] then selected
    else
      var n := |overlaps| - 1;
      var left := RemoveOthers(selected, overlaps[..n], best);
      if n != best && overlaps[n] in left then Remove(left, overlaps[n]) else left
  }

  /** One turn when at most one selected finding overlaps: the better of the two stays. */
  function Choose(selected: seq<Finding>, f: Finding): seq<Finding> {
    var overlaps := Overlaps(selected, f);
    if overlaps == [] then selected + [f]
    else if Beats(f, overlaps[0]) then Remove(selected, overlaps[0]) + [f]
    else selected
  }

  function Chosen(sorted: seq<Finding>): seq<Finding> {
    if sorted == [] then [] else Choose(Chosen(sorted[..|sorted| - 1]), sorted[|sorted| - 1])
  }

  // ---------------------------------------------------------------- what the selection keeps

  /** May stand in front of b in the selection: it comes first by the key and does not overlap it. */
  predicate Ahead(a: Finding, b: Finding) {
    (a.start < b.start || (a.start == b.start && Length(a) >= Length(b))) && !Overlap(a, b)
  }

  predicate Selection(selected: seq<Finding>) {
    forall i, j :: 0 <= i < j < |selected| ==> Ahead(selected[i], selected[j])
  }

  predicate ByKey(sorted: seq<Finding>) {
    forall i, j :: 0 <= i < j < |sorted| ==> Precedes(sorted[i], sorted[j])
  }

  lemma {:induction false} InsertedAre(sorted: seq<Finding>, f: Finding, x: Finding)
    ensures x in InsertByKey(sorted, f) <==> x in sorted || x == f
  {
    if sorted != [] && !Precedes(sorted[|sorted| - 1], f) {
      var n := |sorted| - 1;
      InsertedAre(sorted[..n], f, x);
      assert sorted == sorted[..n] + [sorted[n]];
    }
  }

  lemma {:induction false} AppendKeepsKey(sorted: seq<Finding>, last: Finding)
    requires ByKey(sorted) && forall x :: x in sorted ==> Precedes(x, last)
    ensures ByKey(sorted + [last])
  {
  }

  lemma {:induction false} InsertKeepsKey(sorted: seq<Finding>, f: Finding)
    requires ByKey(sorted)
    ensures ByKey(InsertByKey(sorted, f))
    ensures forall x :: x in InsertByKey(sorted, f) <==> x in sorted || x == f
  {
    forall x ensures x in InsertByKey(sorted, f) <==> x in sorted || x == f { InsertedAre(sorted, f, x); }
    if sorted != [] {
      var n := |sorted| - 1;
      assert sorted == sorted[..n] + [sorted[n]];
      if Precedes(sorted[n], f) {
        forall x | x in sorted ensures Precedes(x, f) { AllUpToLast(sorted, n, x); }
        AppendKeepsKey(sorted, f);
      } else {
        InsertKeepsKey(sorted[..n], f);
        forall x | x in InsertByKey(sorted[..n], f) ensures Precedes(x, sorted[n]) {
          if x != f { AllUpToLast(sorted, n, x); }
        }
        AppendKeepsKey(InsertByKey(sorted[..n], f), sorted[n]);
      }
    }
  }

  lemma {:induction false} AllUpToLast(sorted: seq<Finding>, n: nat, x: Finding)
    requires ByKey(sorted) && |sorted| == n + 1 && x in sorted
    ensures x == sorted[n] || Precedes(x, sorted[n])
  {
    var i :| 0 <= i < |sorted| && sorted[i] == x;
    if i < n { assert Precedes(sorted[i], sorted[n]); }
  }

  lemma {:induction false} SortIsByKey(findings: seq<Finding>)
    ensures ByKey(SortByKey(findings)) && forall x :: x in SortByKey(findings) <==> x in findings
  {
    if findings != [] {
      var n := |findings| - 1;
      SortIsByKey(findings[..n]);
      InsertKeepsKey(SortByKey(findings[..n]), findings[n]);
      assert findings == findings[..n] + [findings[n]];
    }
  }

  lemma {:induction false} RemoveTakesOne(selected: seq<Finding>, item: Finding)
    requires item in selected
    ensures multiset(Remove(selected, item)) == multiset(selected) - multiset{item}
  {
    assert selected == [selected[0]] + selected[1..];
    if selected[0] != item { RemoveTakesOne(selected[1..], item); }
  }

  lemma {:induction false} RestIsSelection(selected: seq<Finding>)
    requires selected != [] && Selection(selected)
    ensures Selection(selected[1..]) && forall x :: x in selected[1..] ==> Ahead(selected[0], x)
  {
    var rest := selected[1..];
    forall i, j | 0 <= i < j < |rest| ensures Ahead(rest[i], rest[j]) {
      assert Ahead(selected[i + 1], selected[j + 1]);
    }
    forall x | x in rest ensures Ahead(selected[0], x) {
      var i :| 0 <= i < |rest| && rest[i] == x;
      assert Ahead(selected[0], selected[i + 1]);
    }
  }

  lemma {:induction false} PrependKeepsSelection(f: Finding, rest: seq<Finding>)
    requires Selection(rest) && forall x :: x in rest ==> Ahead(f, x)
    ensures Selection([f] + rest)
  {
  }

  lemma {:induction false} RemoveKeepsSelection(selected: seq<Finding>, item: Finding)
    requires Selection(selected)
    ensures Selection(Remove(selected, item))
    ensures forall x :: x in Remove(selected, item) ==> x in selected
  {
    if selected != [] {
      RestIsSelection(selected);
      if selected[0] != item {
        RemoveKeepsSelection(selected[1..], item);
        PrependKeepsSelection(selected[0], Remove(selected[1..], item));
      }
    }
  }

  lemma {:induction false} CountOneMore(s: seq<Finding>, n: nat, x: Finding)
    requires |s| == n + 1
    ensures multiset(s)[x] == multiset(s[..n])[x] + if s[n] == x then 1 else 0
  {
    assert s == s[..n] + [s[n]];
  }

  lemma {:induction false} CountAdds(a: seq<Finding>, b: seq<Finding>, x: Finding)
    ensures multiset(a + b)[x] == multiset(a)[x] + multiset(b)[x]
  {
  }

  lemma {:induction false} OverlapsCount(selected: seq<Finding>, f: Finding, x: Finding)
    ensures multiset(Overlaps(selected, f))[x] == if Overlap(f, x) then multiset(selected)[x] else 0
  {
    if selected != [] {
      var n := |selected| - 1;
      OverlapsCount(selected[..n], f, x);
      CountOneMore(selected, n, x);
      CountAdds(Overlaps(selected[..n], f), if Overlap(f, selected[n]) then [selected[n]] else [], x);
    }
  }

  lemma {:induction false} OverlapsAreSelected(selected: seq<Finding>, f: Finding)
    ensures multiset(Overlaps(selected, f)) <= multiset(selected)
  {
    forall x ensures multiset(Overlaps(selected, f))[x] <= multiset(selected)[x] {
      OverlapsCount(selected, f, x);
    }
  }

  lemma {:induction false} AppendKeepsSelection(selected: seq<Finding>, f: Finding)
    requires Selection(selected) && forall x :: x in selected ==> Ahead(x, f)
    ensures Selection(selected + [f])
  {
  }

  lemma {:induction false} SelectionIsCompatible(selected: seq<Finding>)
    requires Selection(selected) && forall f :: f in selected ==> f.start <= f.end
    ensures Compatible(selected)
  {
    forall i, j | 0 <= i < j < |selected| ensures Settled(selected[i], selected[j]) {
      assert Ahead(selected[i], selected[j]) && selected[i] in selected && selected[j] in selected;
    }
  }

  predicate Spans(findings: seq<Finding>) { forall f :: f in findings ==> f.start <= f.end }

  /** The finding is kept, or another one that it overlaps, and does not beat, was there. */
  ghost predicate KeptOrBeaten(f: Finding, kept: seq<Finding>, seen: seq<Finding>) {
    f in kept || exists g :: g in seen && g != f && Overlap(f, g) && !Beats(f, g)
  }

  /** Two selected findings cannot both reach into one that starts behind them. */
  lemma {:induction false} TwoCannotOverlap(a: Finding, b: Finding, f: Finding)
    requires Ahead(a, b) && Precedes(a, f) && Precedes(b, f)
    requires a.start <= a.end && b.start <= b.end && f.start <= f.end
    ensures !(Overlap(f, a) && Overlap(f, b))
  {
  }

  lemma {:induction false} AtMostOneOverlap(selected: seq<Finding>, f: Finding)
    requires Selection(selected) && Spans(selected) && f.start <= f.end
    requires forall x :: x in selected ==> Precedes(x, f)
    ensures |Overlaps(selected, f)| <= 1
    ensures forall x :: x in Overlaps(selected, f) ==> x in selected && Overlap(f, x)
  {
    if selected != [] {
      var n := |selected| - 1;
      var front, last := selected[..n], selected[n];
      assert selected == front + [last];
      AtMostOneOverlap(front, f);
      forall x | x in front ensures Ahead(x, last) {
        var i :| 0 <= i < n && selected[i] == x;
      }
      if Overlaps(front, f) != [] {
        var x := Overlaps(front, f)[0];
        assert x in Overlaps(front, f);
        TwoCannotOverlap(x, last, f);
      }
    }
  }

  lemma {:induction false} RemoveOthersKeepsSelection(selected: seq<Finding>, overlaps: seq<Finding>, best: nat)
    requires Selection(selected)
    ensures Selection(RemoveOthers(selected, overlaps, best))
    ensures forall x :: x in RemoveOthers(selected, overlaps, best) ==> x in selected
  {
    if overlaps != [] {
      var n := |overlaps| - 1;
      RemoveOthersKeepsSelection(selected, overlaps[..n], best);
      RemoveKeepsSelection(RemoveOthers(selected, overlaps[..n], best), overlaps[n]);
    }
  }

  lemma {:induction false} SmallerMultiset(a: multiset<Finding>, b: multiset<Finding>, c: multiset<Finding>, x: Finding)
    requires b + multiset{x} <= a && c == a - b
    ensures x in c && c - multiset{x} == a - (b + multiset{x})
  {
    assert c[x] == a[x] - b[x] && (b + multiset{x})[x] <= a[x];
  }

  /** When the new finding is the best, all overlapping ones go. */
  lemma {:induction false} AllOthersGo(selected: seq<Finding>, overlaps: seq<Finding>, best: nat)
    requires multiset(overlaps) <= multiset(selected) && best >= |overlaps|
    ensures multiset(RemoveOthers(selected, overlaps, best)) == multiset(selected) - multiset(overlaps)
  {
    if overlaps != [] {
      var n := |overlaps| - 1;
      var left := RemoveOthers(selected, overlaps[..n], best);
      assert overlaps == overlaps[..n] + [overlaps[n]];
      AllOthersGo(selected, overlaps[..n], best);
      SmallerMultiset(multiset(selected), multiset(overlaps[..n]), multiset(left), overlaps[n]);
      assert overlaps[n] in multiset(left);
      RemoveTakesOne(left, overlaps[n]);
    }
  }

  lemma {:induction false} RemoveOtherOfOne(selected: seq<Finding>, w: Finding, best: nat)
    requires w in selected
    ensures RemoveOthers(selected, [w], best) == if best == 0 then selected else Remove(selected, w)
  {
    assert [w][..0] == [];
    assert RemoveOthers(selected, [], best) == selected;
  }

  lemma {:induction false} RemoveOthersOneMore(selected: seq<Finding>, overlaps: seq<Finding>, best: nat, k: nat)
    requires k < |overlaps|
    ensures var left := RemoveOthers(selected, overlaps[..k], best);
            RemoveOthers(selected, overlaps[..k + 1], best)
            == if k != best && overlaps[k] in left then Remove(left, overlaps[k]) else left
  {
    assert overlaps[..k + 1][..k] == overlaps[..k];
  }

  /** The removal loop: every overlapping finding but the best. */
  method RemoveLosers(selected: seq<Finding>, overlaps: seq<Finding>, best: nat) returns (left: seq<Finding>)
    ensures left == RemoveOthers(selected, overlaps, best)
  {
    left := selected;
    assert overlaps[..0] == [];
    for k := 0 to |overlaps|
      invariant left == RemoveOthers(selected, overlaps[..k], best)
    {
      RemoveOthersOneMore(selected, overlaps, best, k);
      if overlaps[k] in left && k != best {
        left := Remove(left, overlaps[k]);
      }
    }
    assert overlaps[..|overlaps|] == overlaps;
  }

  predicate AllPrecede(seen: seq<Finding>, f: Finding) { forall x :: x in seen ==> Precedes(x, f) }

  lemma {:induction false} NothingLeftOverlaps(
    selected: seq<Finding>, f: Finding, overlaps: seq<Finding>, left: seq<Finding>)
    requires overlaps == Overlaps(selected, f) && multiset(left) == multiset(selected) - multiset(overlaps)
    requires AllPrecede(selected, f)
    ensures forall x :: x in left ==> Ahead(x, f)
  {
    forall x | x in left ensures Ahead(x, f) {
      assert x in multiset(left);
      LeftIsAhead(selected, f, x);
    }
  }

  lemma {:induction false} LeftIsAhead(selected: seq<Finding>, f: Finding, x: Finding)
    requires x in multiset(selected) - multiset(Overlaps(selected, f)) && AllPrecede(selected, f)
    ensures Ahead(x, f)
  {
    OverlapsCount(selected, f, x);
    LeftOver(multiset(selected), multiset(Overlaps(selected, f)), x);
    assert x in multiset(selected);
    assert x in selected && Precedes(x, f) && !Overlap(f, x);
  }

  lemma {:induction false} LeftOver(a: multiset<Finding>, b: multiset<Finding>, x: Finding)
    ensures x in a - b ==> a[x] > b[x]
  {
  }

  /** One turn of the main loop. */
  method Consider(selected: seq<Finding>, f: Finding) returns (next: seq<Finding>)
    requires Selection(selected) && AllPrecede(selected, f)
    ensures Selection(next) && forall x :: x in next ==> x in selected || x == f
    ensures Spans(selected + [f]) ==> next == Choose(selected, f)
  {
    var overlaps := Overlaps(selected, f);
    if overlaps == [] {
      NothingLeftOverlaps(selected, f, overlaps, selected);
      AppendKeepsSelection(selected, f);
      next := selected + [f];
    } else {
      next := Contest(selected, f, overlaps);
    }
  }

  /** The overlapping findings and the new one: only the best of them stays. */
  method Contest(selected: seq<Finding>, f: Finding, overlaps: seq<Finding>) returns (next: seq<Finding>)
    requires Selection(selected) && AllPrecede(selected, f) && overlaps == Overlaps(selected, f) != []
    ensures Selection(next) && forall x :: x in next ==> x in selected || x == f
    ensures Spans(selected + [f]) ==> next == Choose(selected, f)
  {
    var best := Best(overlaps + [f]);
    var left := RemoveLosers(selected, overlaps, best);
    RemoveOthersKeepsSelection(selected, overlaps, best);
    next := left;
    if best == |overlaps| && f !in left {
      OverlapsAreSelected(selected, f);
      AllOthersGo(selected, overlaps, best);
      NothingLeftOverlaps(selected, f, overlaps, left);
      AppendKeepsSelection(left, f);
      next := left + [f];
    }
    if Spans(selected + [f]) { ContestIsChoice(selected, f, overlaps, best); }
  }

  /** With spans that start no later than they end, the contest is between two. */
  lemma {:induction false} ContestIsChoice(selected: seq<Finding>, f: Finding, overlaps: seq<Finding>, best: nat)
    requires Selection(selected) && AllPrecede(selected, f) && Spans(selected + [f])
    requires overlaps == Overlaps(selected, f) != [] && best <= |overlaps|
    requires forall i :: 0 <= i <= |overlaps| ==> !Beats((overlaps + [f])[i], (overlaps + [f])[best])
    requires forall i :: 0 <= i < best ==> Beats((overlaps + [f])[best], (overlaps + [f])[i])
    ensures var left := RemoveOthers(selected, overlaps, best);
            Choose(selected, f) == if best == |overlaps| && f !in left then left + [f] else left
  {
    var w := overlaps[0];
    assert forall x :: x in selected ==> x in selected + [f];
    assert f in selected + [f];
    AtMostOneOverlap(selected, f);
    assert overlaps == [w] && w in overlaps;
    assert (overlaps + [f])[0] == w && (overlaps + [f])[1] == f;
    RemoveOtherOfOne(selected, w, best);
    if best == 1 {
      assert Beats(f, w);
      WinnerIsNew(selected, w, f);
      RemoveKeepsSelection(selected, w);
    }
  }

  lemma {:induction false} WinnerIsNew(selected: seq<Finding>, w: Finding, f: Finding)
    requires Selection(selected) && w in selected && Overlap(f, w) && Beats(f, w)
    ensures f !in selected
  {
    if f in selected { assert false; }
  }

  /**
   What the detector keeps of any findings: they do not overlap, and of two that start together the later is empty,
   which is exactly what makes splicing from right to left the simultaneous substitution.  A finding is dropped
   only for another that it overlaps and does not beat.
   */
  method Dedupe(findings: seq<Finding>) returns (kept: seq<Finding>)
    ensures forall f :: f in kept ==> f in findings
    ensures forall i, j :: 0 <= i < j < |kept| ==> kept[i].start <= kept[j].start
    ensures Spans(findings) ==> kept == Chosen(SortByKey(findings)) && Compatible(kept)
    ensures Spans(findings) ==> forall f :: f in findings ==> KeptOrBeaten(f, kept, findings)
  {
    var sorted := SortByKey(findings);
    SortIsByKey(findings);
    kept := [];
    for n := 0 to |sorted|
      invariant Selection(kept)
      invariant forall x :: x in kept ==> x in sorted[..n]
      invariant Spans(sorted) ==> kept == Chosen(sorted[..n])
    {
      EarlierPrecede(sorted, n, kept);
      ChosenOneMore(sorted, n);
      TakeOneMore(sorted, n);
      kept := Consider(kept, sorted[n]);
    }
    // The final sort by start changes nothing: the selection is in that order already.
    SelectionIsOrdered(kept);
    assert sorted[..|sorted|] == sorted;
    if Spans(findings) {
      SelectionIsCompatible(kept);
      AllKeptOrBeaten(sorted, findings);
    }
  }

  lemma {:induction false} SelectionIsOrdered(selected: seq<Finding>)
    requires Selection(selected)
    ensures forall i, j :: 0 <= i < j < |selected| ==> selected[i].start <= selected[j].start
  {
    forall i, j | 0 <= i < j < |selected| ensures selected[i].start <= selected[j].start {
      assert Ahead(selected[i], selected[j]);
    }
  }

  lemma {:induction false} TakeOneMore(s: seq<Finding>, k: nat)
    requires k < |s|
    ensures s[..k + 1] == s[..k] + [s[k]]
  {
  }

  lemma {:induction false} EarlierPrecede(sorted: seq<Finding>, n: nat, kept: seq<Finding>)
    requires ByKey(sorted) && n < |sorted| && forall x :: x in kept ==> x in sorted[..n]
    ensures AllPrecede(kept, sorted[n])
    ensures Spans(sorted) ==> Spans(kept + [sorted[n]])
  {
    forall x | x in kept ensures Precedes(x, sorted[n]) && x in sorted {
      var i :| 0 <= i < n && sorted[..n][i] == x;
      assert sorted[i] == x;
    }
  }

  lemma {:induction false} ChosenOneMore(sorted: seq<Finding>, n: nat)
    requires n < |sorted|
    ensures Chosen(sorted[..n + 1]) == Choose(Chosen(sorted[..n]), sorted[n])
  {
    assert sorted[..n + 1][..n] == sorted[..n];
  }

  // ---------------------------------------------------------------- what becomes of the others

  lemma {:induction false} OverlapIsSelected(selected: seq<Finding>, f: Finding)
    requires Overlaps(selected, f) != []
    ensures Overlaps(selected, f)[0] in selected && Overlap(f, Overlaps(selected, f)[0])
  {
    var n := |selected| - 1;
    if Overlaps(selected[..n], f) != [] { OverlapIsSelected(selected[..n], f); }
  }

  lemma {:induction false} OthersStay(selected: seq<Finding>, w: Finding, x: Finding)
    ensures x in Remove(selected, w) ==> x in selected
    ensures x in selected && x != w ==> x in Remove(selected, w)
  {
    if selected != [] {
      assert selected == [selected[0]] + selected[1..];
      OthersStay(selected[1..], w, x);
    }
  }

  /** A selected finding stays, or gives way to the new one that overlaps and beats it. */
  lemma {:induction false} ChoiceKeeps(selected: seq<Finding>, f: Finding, x: Finding)
    requires x in selected
    ensures x in Choose(selected, f) || (f in Choose(selected, f) && Overlap(f, x) && Beats(f, x))
  {
    var overlaps := Overlaps(selected, f);
    if overlaps != [] && Beats(f, overlaps[0]) {
      OverlapIsSelected(selected, f);
      OthersStay(selected, overlaps[0], x);
    }
  }

  /** The new finding is selected, or overlaps a selected one that it does not beat. */
  lemma {:induction false} NewIsKeptOrBeaten(selected: seq<Finding>, f: Finding) returns (w: Finding)
    ensures w in Choose(selected, f) && (w == f || (w in selected && Overlap(f, w) && !Beats(f, w)))
  {
    var overlaps := Overlaps(selected, f);
    w := f;
    if overlaps != [] && !Beats(f, overlaps[0]) {
      OverlapIsSelected(selected, f);
      w := overlaps[0];
    }
  }

  lemma {:induction false} ChosenAreSorted(sorted: seq<Finding>, x: Finding)
    requires x in Chosen(sorted)
    ensures x in sorted
  {
    var n := |sorted| - 1;
    var before, f := Chosen(sorted[..n]), sorted[n];
    if Overlaps(before, f) != [] { OthersStay(before, Overlaps(before, f)[0], x); }
    if x in before {
      ChosenAreSorted(sorted[..n], x);
      assert sorted == sorted[..n] + [f];
    }
  }

  lemma {:induction false} GivesWay(selected: seq<Finding>, f: Finding, x: Finding, findings: seq<Finding>)
    requires x in selected && f in findings
    ensures KeptOrBeaten(x, Choose(selected, f), findings)
  {
    ChoiceKeeps(selected, f, x);
    assert f != x && Overlap(f, x) && Beats(f, x) ==> f in findings && f != x && Overlap(x, f) && !Beats(x, f);
  }

  lemma {:induction false} AllKeptOrBeaten(sorted: seq<Finding>, findings: seq<Finding>)
    requires forall x :: x in sorted ==> x in findings
    ensures forall x :: x in sorted ==> KeptOrBeaten(x, Chosen(sorted), findings)
  {
    if sorted != [] {
      var n := |sorted| - 1;
      var before, f := Chosen(sorted[..n]), sorted[n];
      assert sorted == sorted[..n] + [f];
      AllKeptOrBeaten(sorted[..n], findings);
      var w := NewIsKeptOrBeaten(before, f);
      if w != f { ChosenAreSorted(sorted[..n], w); }
      forall x | x in before ensures KeptOrBeaten(x, Chosen(sorted), findings) { GivesWay(before, f, x, findings); }
    }
  }

  // ---------------------------------------------------------------- the rules, by spans and numbers

  predicate Holds(f: Finding, p: int) { f.start <= p < f.end }

  /** Findings with text overlap exactly if they share a position. */
  lemma {:induction false} OverlapIff(a: Finding, b: Finding)
    requires a.start < a.end && b.start < b.end
    ensures Overlap(a, b) <==> exists p :: Holds(a, p) && Holds(b, p)
  {
    if Overlap(a, b) {
      var p := if a.start < b.start then b.start else a.start;
      assert Holds(a, p) && Holds(b, p);
    }
  }

  /** Sorted findings start in order; of those that start together the longer come first, then the more certain. */
  lemma {:induction false} SortedOutright(findings: seq<Finding>)
    ensures var sorted := SortByKey(findings);
            && multiset(sorted) == multiset(findings)
            && forall i, j :: 0 <= i < j < |sorted| ==>
                 && sorted[i].start <= sorted[j].start
                 && (sorted[i].start == sorted[j].start ==> sorted[i].end >= sorted[j].end)
                 && (sorted[i].start == sorted[j].start && sorted[i].end == sorted[j].end ==>
                       sorted[i].confidence >= sorted[j].confidence)
  {
    SortIsByKey(findings);
    SortKeepsAll(findings);
    var sorted := SortByKey(findings);
    forall i, j | 0 <= i < j < |sorted| ensures Precedes(sorted[i], sorted[j]) { }
  }

  lemma {:induction false} AppendCounts(front: seq<Finding>, last: Finding, x: Finding)
    ensures multiset(front + [last])[x] == multiset(front)[x] + if last == x then 1 else 0
  {
  }

  function Occurrences(findings: seq<Finding>, x: Finding): nat { multiset(findings)[x] }

  lemma {:induction false} InsertCounts(sorted: seq<Finding>, f: Finding, x: Finding)
    ensures Occurrences(InsertByKey(sorted, f), x) == Occurrences(sorted, x) + if f == x then 1 else 0
  {
    if sorted == [] {
      AppendCounts([], f, x);
      assert [] + [f] == [f];
    } else {
      var n := |sorted| - 1;
      var front, last := sorted[..n], sorted[n];
      assert sorted == front + [last];
      if Precedes(last, f) {
        AppendCounts(sorted, f, x);
      } else {
        InsertCounts(front, f, x);
        AppendCounts(InsertByKey(front, f), last, x);
        AppendCounts(front, last, x);
      }
    }
  }

  lemma {:induction false} SortCounts(findings: seq<Finding>, x: Finding)
    ensures multiset(SortByKey(findings))[x] == multiset(findings)[x]
  {
    if findings != [] {
      var n := |findings| - 1;
      SortCounts(findings[..n], x);
      InsertCounts(SortByKey(findings[..n]), findings[n], x);
      CountOneMore(findings, n, x);
    }
  }

  lemma {:induction false} SortKeepsAll(findings: seq<Finding>)
    ensures multiset(SortByKey(findings)) == multiset(findings)
  {
    forall x ensures multiset(SortByKey(findings))[x] == multiset(findings)[x] { SortCounts(findings, x); }
  }

  /**
   Of two findings that overlap the more confident is kept, of equally confident ones the longer, and of equally
   long ones the one that was there.
   */
  lemma {:induction false} BetterOfTwo(w: Finding, f: Finding)
    requires Overlap(f, w)
    ensures Choose([w], f)
         == if f.confidence > w.confidence
               || (f.confidence == w.confidence && f.end - f.start > w.end - w.start) then [f] else [w]
  {
    assert [w][..0] == [] && Overlaps([], f) == [];
    assert Overlaps([w], f) == [w];
  }

  /** Findings that are apart are both kept. */
  lemma {:induction false} BothOfTwo(w: Finding, f: Finding)
    requires !Overlap(f, w)
    ensures Choose([w], f) == [w, f]
  {
    assert [w][..0] == [] && Overlaps([], f) == [];
    assert Overlaps([w], f) == [];
  }
}
