/**
 Whether the selection among overlapping findings (_dedupe in services/sensitive_data_detection.py) leaves a
 reported finding without any kept one that overlaps it, so that none of its text is replaced.
 */
module FindingCoverage {
  import opened PageRedaction
  import opened FindingSelection

  predicate HaveText(findings: seq<Finding>) { forall f :: f in findings ==> f.start < f.end }

  /** The finding is kept, or a kept one overlaps it, so that some of its text is replaced. */
  ghost predicate IsCovered(f: Finding, kept: seq<Finding>) { f in kept || exists x :: x in kept && Overlap(f, x) }

  /** Taking over from the selected finding that it beats, g leaves f, which starts and ends before it, uncovered. */
  ghost predicate Abandons(selected: seq<Finding>, g: Finding, f: Finding) {
    var overlaps := Overlaps(selected, g);
    && overlaps != [] && Beats(g, overlaps[0]) && Overlap(f, overlaps[0])
    && f.end <= g.start && !IsCovered(f, Remove(selected, overlaps[0]))
  }

  /** No turn of the main loop abandons a finding seen before. */
  ghost predicate NoneAbandoned(sorted: seq<Finding>) {
    sorted == []
    || (var n := |sorted| - 1;
        NoneAbandoned(sorted[..n]) && forall f :: f in sorted[..n] ==> !Abandons(Chosen(sorted[..n]), sorted[n], f))
  }

  lemma {:induction false} TurnCovers(selected: seq<Finding>, g: Finding, f: Finding)
    requires IsCovered(f, selected) && !Abandons(selected, g, f)
    requires f.start <= g.start < g.end && f.start < f.end
    ensures IsCovered(f, Choose(selected, g))
  {
    if f in selected {
      ChoiceKeeps(selected, g, f);
    } else {
      var x :| x in selected && Overlap(f, x);
      var overlaps := Overlaps(selected, g);
      if overlaps != [] && Beats(g, overlaps[0]) {
        OthersStay(selected, overlaps[0], x);
        if IsCovered(f, Remove(selected, overlaps[0])) { StillCovered(selected, g, f); }
        assert Overlap(f, g) ==> IsCovered(f, Choose(selected, g));
      } else {
        assert x in Choose(selected, g);
      }
    }
  }

  lemma {:induction false} StillCovered(selected: seq<Finding>, g: Finding, f: Finding)
    requires Overlaps(selected, g) != [] && Beats(g, Overlaps(selected, g)[0])
    requires IsCovered(f, Remove(selected, Overlaps(selected, g)[0]))
    ensures IsCovered(f, Choose(selected, g))
  {
    var left := Remove(selected, Overlaps(selected, g)[0]);
    if f !in left {
      var x :| x in left && Overlap(f, x);
      assert x in left + [g];
    }
  }

  lemma {:induction false} NewIsCovered(selected: seq<Finding>, f: Finding)
    ensures IsCovered(f, Choose(selected, f))
  {
    var w := NewIsKeptOrBeaten(selected, f);
  }

  lemma {:induction false} AllStayCovered(sorted: seq<Finding>)
    requires ByKey(sorted) && HaveText(sorted) && NoneAbandoned(sorted)
    ensures forall f :: f in sorted ==> IsCovered(f, Chosen(sorted))
  {
    if sorted != [] {
      var n := |sorted| - 1;
      var g := sorted[n];
      assert sorted == sorted[..n] + [g];
      AllStayCovered(sorted[..n]);
      EarlierPrecede(sorted, n, sorted[..n]);
      forall f | f in sorted[..n] ensures IsCovered(f, Chosen(sorted)) {
        TurnCovers(Chosen(sorted[..n]), g, f);
      }
      NewIsCovered(Chosen(sorted[..n]), g);
    }
  }

  /** What ends before everything still to come is never covered again. */
  lemma {:induction false} StaysUncovered(selected: seq<Finding>, g: Finding, f: Finding)
    requires f.start < f.end <= g.start && !IsCovered(f, selected)
    ensures !IsCovered(f, Choose(selected, g))
  {
    var overlaps := Overlaps(selected, g);
    forall x | x in Choose(selected, g) ensures x != f && !Overlap(f, x) {
      if overlaps != [] { OthersStay(selected, overlaps[0], x); }
    }
  }

  lemma {:induction false} AbandonedIsUncovered(selected: seq<Finding>, g: Finding, f: Finding)
    requires Abandons(selected, g, f) && f.start < f.end
    ensures !IsCovered(f, Choose(selected, g))
  {
  }

  lemma {:induction false} SomeStayUncovered(sorted: seq<Finding>) returns (f: Finding)
    requires ByKey(sorted) && HaveText(sorted) && !NoneAbandoned(sorted)
    ensures f in sorted && !IsCovered(f, Chosen(sorted)) && f.end <= sorted[|sorted| - 1].start
  {
    var n := |sorted| - 1;
    var g := sorted[n];
    assert sorted == sorted[..n] + [g];
    if NoneAbandoned(sorted[..n]) {
      f :| f in sorted[..n] && Abandons(Chosen(sorted[..n]), g, f);
      AbandonedIsUncovered(Chosen(sorted[..n]), g, f);
    } else {
      f := SomeStayUncovered(sorted[..n]);
      assert Precedes(sorted[n - 1], sorted[n]);
      StaysUncovered(Chosen(sorted[..n]), g, f);
    }
  }

  /**
   Every reported finding is kept or overlaps a kept one if and only if no finding that takes over from the one it
   beats starts behind the end of an earlier finding that only the beaten one covered.
   */
  lemma {:induction false} AllCoveredIff(findings: seq<Finding>)
    requires HaveText(findings)
    ensures (forall f :: f in findings ==> IsCovered(f, Chosen(SortByKey(findings))))
       <==> NoneAbandoned(SortByKey(findings))
  {
    var sorted := SortByKey(findings);
    SortIsByKey(findings);
    if NoneAbandoned(sorted) {
      AllStayCovered(sorted);
    } else {
      var f := SomeStayUncovered(sorted);
    }
  }

  // ---------------------------------------------------------------- seen from the findings alone

  /** w is not beaten by f, which it overlaps, but by g, which starts behind f. */
  predicate IsChain(f: Finding, w: Finding, g: Finding) {
    Overlap(f, w) && !Beats(f, w) && Overlap(g, w) && Beats(g, w) && f.end <= g.start
  }

  predicate HasChain(findings: seq<Finding>) {
    exists f, w, g :: f in findings && w in findings && g in findings && IsChain(f, w, g)
  }

  lemma {:induction false} TurnKeepsCover(selected: seq<Finding>, g: Finding, f: Finding)
    requires KeptOrBeaten(f, selected, selected) && forall w :: w in selected ==> !IsChain(f, w, g)
    requires f.start <= g.start < g.end && f.start < f.end
    ensures KeptOrBeaten(f, Choose(selected, g), Choose(selected, g))
  {
    if f in selected {
      ChoiceKeeps(selected, g, f);
    } else {
      var x :| x in selected && x != f && Overlap(f, x) && !Beats(f, x);
      ChoiceKeeps(selected, g, x);
      if x !in Choose(selected, g) {
        assert !IsChain(f, x, g);
        assert Overlap(f, g) && !Beats(f, g);
      }
    }
  }

  lemma {:induction false} WithoutChainAllKeepCover(sorted: seq<Finding>)
    requires ByKey(sorted) && HaveText(sorted) && !HasChain(sorted)
    ensures forall f :: f in sorted ==> KeptOrBeaten(f, Chosen(sorted), Chosen(sorted))
  {
    if sorted != [] {
      var n := |sorted| - 1;
      var before, g := Chosen(sorted[..n]), sorted[n];
      assert sorted == sorted[..n] + [g];
      WithoutChainAllKeepCover(sorted[..n]);
      EarlierPrecede(sorted, n, sorted[..n]);
      forall w | w in before ensures w in sorted { ChosenAreSorted(sorted[..n], w); }
      forall f | f in sorted[..n] ensures KeptOrBeaten(f, Chosen(sorted), Chosen(sorted)) {
        assert forall w :: w in before ==> !IsChain(f, w, g);
        TurnKeepsCover(before, g, f);
      }
      var w := NewIsKeptOrBeaten(before, g);
    }
  }

  /** Findings without such a chain all end up kept, or overlapping a kept one that they do not beat. */
  lemma {:induction false} WithoutChainAllAreCovered(findings: seq<Finding>)
    requires HaveText(findings) && !HasChain(findings)
    ensures var kept := Chosen(SortByKey(findings)); forall f :: f in findings ==> KeptOrBeaten(f, kept, kept)
  {
    SortIsByKey(findings);
    WithoutChainAllKeepCover(SortByKey(findings));
  }

  lemma {:induction false} SortedStays(sorted: seq<Finding>)
    requires ByKey(sorted)
    ensures SortByKey(sorted) == sorted
  {
    if sorted != [] {
      var n := |sorted| - 1;
      SortedStays(sorted[..n]);
      assert sorted == sorted[..n] + [sorted[n]];
      if n > 0 { assert Precedes(sorted[n - 1], sorted[n]); }
    }
  }

  lemma {:induction false} TakesOver(w: Finding, g: Finding)
    requires Overlap(g, w) && Beats(g, w)
    ensures Choose([w], g) == [g]
  {
    assert [w][..0] == [] && Overlaps([], g) == [];
    assert Overlaps([w], g) == [w];
  }

  lemma {:induction false} FirstIsChosen(f: Finding)
    ensures Chosen([f]) == [f]
  {
    assert [f][..0] == [];
    assert Chosen([]) == [] && Overlaps([], f) == [];
  }

  lemma {:induction false} ChosenGoesOn(sorted: seq<Finding>, f: Finding)
    ensures Chosen(sorted + [f]) == Choose(Chosen(sorted), f)
  {
    assert (sorted + [f])[..|sorted|] == sorted;
  }

  lemma {:induction false} TakeOvers(f: Finding, w: Finding, g: Finding)
    requires Overlap(w, f) && Beats(w, f) && Overlap(g, w) && Beats(g, w)
    ensures Chosen([f] + [w] + [g]) == [g]
  {
    FirstIsChosen(f);
    ChosenGoesOn([f], w);
    TakesOver(f, w);
    ChosenGoesOn([f] + [w], g);
    TakesOver(w, g);
  }

  lemma {:induction false} ThreeByKey(f: Finding, w: Finding, g: Finding)
    requires Precedes(f, w) && Precedes(w, g) && Precedes(f, g)
    ensures ByKey([f, w, g])
  {
  }

  lemma {:induction false} OneDoesNotCover(f: Finding, g: Finding)
    requires f.start < f.end <= g.start
    ensures !IsCovered(f, [g])
  {
  }

  /**
   Three findings with rising confidence, each overlapping the next: only the last is kept, the first is uncovered.
   */
  lemma {:induction false} RisingChainUncoversTheFirst(f: Finding, w: Finding, g: Finding)
    requires Precedes(f, w) && Precedes(w, g) && Precedes(f, g)
    requires Overlap(w, f) && Beats(w, f) && Overlap(g, w) && Beats(g, w) && f.start < f.end <= g.start
    ensures var kept := Chosen(SortByKey([f, w, g])); kept == [g] && !IsCovered(f, kept)
  {
    ThreeByKey(f, w, g);
    SortedStays([f, w, g]);
    TakeOvers(f, w, g);
    assert [f] + [w] + [g] == [f, w, g];
    OneDoesNotCover(f, g);
  }

  /** Such findings exist: the text of the first, although detected, is not replaced. */
  lemma {:induction false} DetectedTextCanStay(entity: string, text: string)
    ensures var f, w, g := Finding(0, 5, entity, 0.5, text), Finding(4, 10, entity, 0.6, text),
                           Finding(9, 15, entity, 0.7, text);
            var kept := Chosen(SortByKey([f, w, g])); kept == [g] && !IsCovered(f, kept)
  {
    RisingChainUncoversTheFirst(Finding(0, 5, entity, 0.5, text), Finding(4, 10, entity, 0.6, text),
                                Finding(9, 15, entity, 0.7, text));
  }
}
