/**
 The compliance scores and their change log (services/compliance_evidence_engine.py), for one tenant.

 A calculation reads the stored scores once, at its start, and then persists one control after another.
 The evidence rows it scores are its input: mapping source events to controls is not modelled.
 */
module ScoreJournal {
  import opened Options

  datatype Framework = SOC2 | GDPR | HIPAA | ISO27001 | PCI_DSS | NIST

  datatype ControlId =
    | SOC2_CC6_1 | SOC2_CC7_2 | SOC2_CC8_1
    | GDPR_ART5 | GDPR_ART32 | GDPR_ART30
    | HIPAA_164_312A | HIPAA_164_312B | HIPAA_164_312E
    | ISO27001_A_5_15 | ISO27001_A_8_12
    | PCI_DSS_3_4 | PCI_DSS_10_2
    | NIST_AC_2 | NIST_SI_4

  datatype Key = Key(framework: Framework, id: ControlId)

  datatype Control = Control(key: Key, weight: int)

  const CATALOG: seq<Control> := [
    Control(Key(SOC2, SOC2_CC6_1), 15), Control(Key(SOC2, SOC2_CC7_2), 15), Control(Key(SOC2, SOC2_CC8_1), 10),
    Control(Key(GDPR, GDPR_ART5), 15), Control(Key(GDPR, GDPR_ART32), 15), Control(Key(GDPR, GDPR_ART30), 10),
    Control(Key(HIPAA, HIPAA_164_312A), 15), Control(Key(HIPAA, HIPAA_164_312B), 15),
    Control(Key(HIPAA, HIPAA_164_312E), 10),
    Control(Key(ISO27001, ISO27001_A_5_15), 10), Control(Key(ISO27001, ISO27001_A_8_12), 10),
    Control(Key(PCI_DSS, PCI_DSS_3_4), 10), Control(Key(PCI_DSS, PCI_DSS_10_2), 10),
    Control(Key(NIST, NIST_AC_2), 10), Control(Key(NIST, NIST_SI_4), 10)]

  /** What the results need of a catalog: no control twice, and positive weights. */
  predicate WellFormed(catalog: seq<Control>) {
    && (forall i, j :: 0 <= i < j < |catalog| ==> catalog[i].key.id != catalog[j].key.id)
    && (forall i :: 0 <= i < |catalog| ==> catalog[i].weight > 0)
  }

  function Position(id: ControlId): nat {
    match id
    case SOC2_CC6_1 => 0 case SOC2_CC7_2 => 1 case SOC2_CC8_1 => 2
    case GDPR_ART5 => 3 case GDPR_ART32 => 4 case GDPR_ART30 => 5
    case HIPAA_164_312A => 6 case HIPAA_164_312B => 7 case HIPAA_164_312E => 8
    case ISO27001_A_5_15 => 9 case ISO27001_A_8_12 => 10
    case PCI_DSS_3_4 => 11 case PCI_DSS_10_2 => 12
    case NIST_AC_2 => 13 case NIST_SI_4 => 14
  }

  lemma {:induction false} ShippedCatalogIsWellFormed()
    ensures WellFormed(CATALOG)
  {
    forall i | 0 <= i < |CATALOG|
      ensures Position(CATALOG[i].key.id) == i && CATALOG[i].weight > 0
    {
    }
  }

  // ---------------------------------------------------------------- scores

  datatype Evidence = Evidence(control: ControlId, impact: int)

  /** The summed negative impacts of a control's evidence rows. */
  function NegativeTotal(evidence: seq<Evidence>, id: ControlId): (t: int)
    ensures t <= 0
  {
    if evidence == [] then 0
    else
      var last := evidence[|evidence| - 1];
      NegativeTotal(evidence[..|evidence| - 1], id) + if last.control == id && last.impact < 0 then last.impact else 0
  }

  function Score(evidence: seq<Evidence>, id: ControlId): (score: int)
    ensures 0 <= score <= 100
  {
    var raw := 100 + NegativeTotal(evidence, id);
    if raw < 0 then 0 else raw
  }

  /** One more row, wherever it lands in the query's result, adds its own impact if that is negative, and no more. */
  lemma {:induction false} RowAdds(before: seq<Evidence>, row: Evidence, after: seq<Evidence>, id: ControlId)
    ensures NegativeTotal(before + [row] + after, id)
         == NegativeTotal(before + after, id) + if row.control == id && row.impact < 0 then row.impact else 0
  {
    var all := before + [row] + after;
    if after == [] {
      assert all[..|all| - 1] == before == before + after;
    } else {
      var front := after[..|after| - 1];
      RowAdds(before, row, front, id);
      assert all[..|all| - 1] == before + [row] + front;
      assert (before + after)[..|before + after| - 1] == before + front;
    }
  }

  /** New evidence never raises a score, and changes it only for its own control and by a negative impact. */
  lemma {:induction false} EvidenceNeverHelps(before: seq<Evidence>, row: Evidence, after: seq<Evidence>, id: ControlId)
    ensures Score(before + [row] + after, id) <= Score(before + after, id)
    ensures row.control != id || row.impact >= 0 ==> Score(before + [row] + after, id) == Score(before + after, id)
    ensures row.control == id && row.impact < 0 && Score(before + after, id) > 0 ==>
              Score(before + [row] + after, id) < Score(before + after, id)
  {
    RowAdds(before, row, after, id);
  }

  /** A control starts at 100, and each negative row of its own takes its impact off, down to zero. */
  lemma {:induction false} ScoreStep(before: seq<Evidence>, row: Evidence, after: seq<Evidence>, id: ControlId)
    ensures Score([], id) == 100
    ensures var was := Score(before + after, id);
            Score(before + [row] + after, id)
            == if row.control != id || row.impact >= 0 then was
               else if was + row.impact < 0 then 0 else was + row.impact
  {
    RowAdds(before, row, after, id);
  }

  /** Without negative evidence of its own a control scores 100. */
  lemma {:induction false} UntouchedScoresHundred(evidence: seq<Evidence>, id: ControlId)
    requires forall i :: 0 <= i < |evidence| ==> evidence[i].control != id || evidence[i].impact >= 0
    ensures Score(evidence, id) == 100
  {
    if evidence != [] {
      var n := |evidence| - 1;
      UntouchedScoresHundred(evidence[..n], id);
      ScoreStep(evidence[..n], evidence[n], [], id);
      assert evidence[..n] + [evidence[n]] + [] == evidence && evidence[..n] + [] == evidence[..n];
    }
  }

  // ---------------------------------------------------------------- stored scores and changes

  /** A row of compliance_score_changes. */
  datatype Change = Change(key: Key, previous: Option<int>, current: int)

  datatype State = State(scores: map<Key, int>, changes: seq<Change>)

  function Lookup(scores: map<Key, int>, key: Key): Option<int> {
    if key in scores then Some(scores[key]) else None
  }

  /** _persist_control_score: the upsert, and a change row when the score differs from the one read at the start. */
  function Persist(s: State, key: Key, score: int, snapshot: map<Key, int>): State {
    var previous := Lookup(snapshot, key);
    State(s.scores[key := score],
          if previous == Some(score) then s.changes else s.changes + [Change(key, previous, score)])
  }

  function PersistAll(s: State, controls: seq<Control>, evidence: seq<Evidence>, snapshot: map<Key, int>): State {
    if controls == [] then s
    else
      var last := controls[|controls| - 1].key;
      Persist(PersistAll(s, controls[..|controls| - 1], evidence, snapshot), last, Score(evidence, last.id), snapshot)
  }

  function Calculate(catalog: seq<Control>, s: State, evidence: seq<Evidence>): State {
    PersistAll(s, catalog, evidence, s.scores)
  }

  /** All calculations of a run, one after the other, from an empty store. */
  function CalculateEach(catalog: seq<Control>, run: seq<seq<Evidence>>): State {
    if run == [] then State(map[], []) else Calculate(catalog, CalculateEach(catalog, run[..|run| - 1]), run[|run| - 1])
  }

  class ScoreStore {
    var scores: map<Key, int>
    var changes: seq<Change>

    function Contents(): State reads this { State(scores, changes) }

    constructor ()
      ensures Contents() == State(map[], [])
    {
      scores := map[];
      changes := [];
    }

    method PersistControlScore(key: Key, score: int, previous: map<Key, int>)
      modifies this
      ensures Contents() == Persist(old(Contents()), key, score, previous)
    {
      scores := scores[key := score];
      if key !in previous || previous[key] != score {
        changes := changes + [Change(key, Lookup(previous, key), score)];
      }
    }

    method CalculateScores(catalog: seq<Control>, evidence: seq<Evidence>) returns (control_scores: seq<int>)
      modifies this
      ensures Contents() == Calculate(catalog, old(Contents()), evidence)
      ensures control_scores == ControlScores(catalog, evidence)
    {
      var previous := scores;
      control_scores := [];
      for i := 0 to |catalog|
        invariant Contents() == PersistAll(old(Contents()), catalog[..i], evidence, previous)
        invariant control_scores == ControlScores(catalog[..i], evidence)
      {
        var key := catalog[i].key;
        var score := Score(evidence, key.id);
        control_scores := control_scores + [score];
        PersistControlScore(key, score, previous);
        assert catalog[..i + 1][..i] == catalog[..i];
      }
      assert catalog[..|catalog|] == catalog;
    }
  }

  function ControlScores(catalog: seq<Control>, evidence: seq<Evidence>): (scores: seq<int>)
    ensures |scores| == |catalog|
    ensures forall i :: 0 <= i < |catalog| ==> scores[i] == Score(evidence, catalog[i].key.id)
  {
    seq(|catalog|, i requires 0 <= i < |catalog| => Score(evidence, catalog[i].key.id))
  }

  // ---------------------------------------------------------------- the journal

  /** The change rows of one control, oldest first. */
  function EntriesOf(changes: seq<Change>, key: Key): seq<Change> {
    if changes == [] then []
    else
      var last := changes[|changes| - 1];
      EntriesOf(changes[..|changes| - 1], key) + if last.key == key then [last] else []
  }

  lemma {:induction false} EntriesOfAppended(changes: seq<Change>, c: Change, key: Key)
    ensures EntriesOf(changes + [c], key) == EntriesOf(changes, key) + if c.key == key then [c] else []
  {
    assert (changes + [c])[..|changes|] == changes;
  }

  /** What one more score adds to the change rows of a control whose stored score is `previous`. */
  function Transition(key: Key, previous: Option<int>, score: int): seq<Change> {
    if previous == Some(score) then [] else [Change(key, previous, score)]
  }

  /** The change rows a history of scores deserves: one for each score that differs from the one before it. */
  function Transitions(key: Key, history: seq<int>): seq<Change> {
    if history == [] then []
    else
      var front := history[..|history| - 1];
      Transitions(key, front) + Transition(key, LastOf(front), history[|history| - 1])
  }

  function LastOf(history: seq<int>): Option<int> {
    if history == [] then None else Some(history[|history| - 1])
  }

  lemma {:induction false} PersistEntries(s: State, key: Key, score: int, snapshot: map<Key, int>, other: Key)
    ensures var t := Persist(s, key, score, snapshot);
            && EntriesOf(t.changes, key) == EntriesOf(s.changes, key) + Transition(key, Lookup(snapshot, key), score)
            && (other != key ==> EntriesOf(t.changes, other) == EntriesOf(s.changes, other))
            && Lookup(t.scores, key) == Some(score)
            && (other != key ==> Lookup(t.scores, other) == Lookup(s.scores, other))
  {
    if Lookup(snapshot, key) != Some(score) {
      EntriesOfAppended(s.changes, Change(key, Lookup(snapshot, key), score), key);
      EntriesOfAppended(s.changes, Change(key, Lookup(snapshot, key), score), other);
    }
  }

  predicate Lists(controls: seq<Control>, key: Key) { exists i :: 0 <= i < |controls| && controls[i].key == key }

  /** A whole calculation touches each listed control once and no other. */
  lemma {:induction false} PersistAllEntries(s: State, controls: seq<Control>, evidence: seq<Evidence>,
                                             snapshot: map<Key, int>, key: Key)
    requires forall i, j :: 0 <= i < j < |controls| ==> controls[i].key.id != controls[j].key.id
    ensures var t := PersistAll(s, controls, evidence, snapshot);
            if Lists(controls, key) then
              && EntriesOf(t.changes, key)
                 == EntriesOf(s.changes, key) + Transition(key, Lookup(snapshot, key), Score(evidence, key.id))
              && Lookup(t.scores, key) == Some(Score(evidence, key.id))
            else
              EntriesOf(t.changes, key) == EntriesOf(s.changes, key) && Lookup(t.scores, key) == Lookup(s.scores, key)
  {
    if controls != [] {
      var n := |controls| - 1;
      var front, last := controls[..n], controls[n].key;
      PersistAllEntries(s, front, evidence, snapshot, key);
      PersistEntries(PersistAll(s, front, evidence, snapshot), last, Score(evidence, last.id), snapshot, key);
      if last == key {
        assert controls[n].key == key;
        assert !Lists(front, key);
      } else if Lists(controls, key) {
        var i :| 0 <= i < |controls| && controls[i].key == key;
        assert front[i].key == key;
      }
    }
  }

  /** The scores a run gave to one control. */
  function History(run: seq<seq<Evidence>>, id: ControlId): (h: seq<int>)
    ensures |h| == |run|
    ensures forall i :: 0 <= i < |run| ==> h[i] == Score(run[i], id)
  {
    seq(|run|, i requires 0 <= i < |run| => Score(run[i], id))
  }

  /**
   Over every sequence of calculations the change log is the exact journal of each control: it holds the
   transitions of the control's score history and nothing else, and the stored score is the last in that history.
   */
  lemma {:induction false} JournalIsExact(catalog: seq<Control>, run: seq<seq<Evidence>>, key: Key)
    requires WellFormed(catalog) && Lists(catalog, key)
    ensures EntriesOf(CalculateEach(catalog, run).changes, key) == Transitions(key, History(run, key.id))
    ensures Lookup(CalculateEach(catalog, run).scores, key) == LastOf(History(run, key.id))
  {
    if run != [] {
      var n := |run| - 1;
      JournalIsExact(catalog, run[..n], key);
      var s := CalculateEach(catalog, run[..n]);
      PersistAllEntries(s, catalog, run[n], s.scores, key);
      assert History(run, key.id)[..n] == History(run[..n], key.id);
    }
  }

  /** Entry i starts where the one before it ended, and goes somewhere else. */
  predicate LinkedAt(entries: seq<Change>, i: nat)
    requires i < |entries|
  {
    && entries[i].previous == (if i == 0 then None else Some(entries[i - 1].current))
    && entries[i].previous != Some(entries[i].current)
  }

  predicate Linked(entries: seq<Change>) { forall i :: 0 <= i < |entries| ==> LinkedAt(entries, i) }

  function LatestOf(entries: seq<Change>): Option<int> {
    if entries == [] then None else Some(entries[|entries| - 1].current)
  }

  /** The control's rows form a linked journal that ends in the stored score. */
  predicate Journal(s: State, key: Key) {
    && Linked(EntriesOf(s.changes, key))
    && LatestOf(EntriesOf(s.changes, key)) == Lookup(s.scores, key)
  }

  lemma {:induction false} LinkedWithOneMore(entries: seq<Change>, c: Change)
    ensures Linked(entries + [c])
       <==> Linked(entries) && c.previous == LatestOf(entries) && c.previous != Some(c.current)
  {
    var all := entries + [c];
    assert LinkedAt(all, |entries|) <==> c.previous == LatestOf(entries) && c.previous != Some(c.current);
    forall i | 0 <= i < |entries|
      ensures LinkedAt(all, i) == LinkedAt(entries, i)
    {
    }
    if Linked(all) {
      forall i | 0 <= i < |entries|
        ensures LinkedAt(entries, i)
      {
        assert LinkedAt(all, i);
      }
    }
  }

  lemma {:induction false} TransitionsAreLinked(key: Key, history: seq<int>)
    ensures Linked(Transitions(key, history)) && LatestOf(Transitions(key, history)) == LastOf(history)
  {
    if history != [] {
      var front, score := history[..|history| - 1], history[|history| - 1];
      TransitionsAreLinked(key, front);
      LinkedWithOneMore(Transitions(key, front), Change(key, LastOf(front), score));
      assert Transitions(key, front) + [] == Transitions(key, front);
    }
  }

  lemma {:induction false} RunKeepsJournal(catalog: seq<Control>, run: seq<seq<Evidence>>, key: Key)
    requires WellFormed(catalog) && Lists(catalog, key)
    ensures Journal(CalculateEach(catalog, run), key)
  {
    JournalIsExact(catalog, run, key);
    TransitionsAreLinked(key, History(run, key.id));
  }

  /**
   When calculations overlap, persisting a control keeps its journal if and only if the score read when
   that calculation began is still the stored one.
   */
  lemma {:induction false} PersistKeepsJournalIff(s: State, key: Key, score: int, snapshot: map<Key, int>)
    requires Journal(s, key)
    ensures Journal(Persist(s, key, score, snapshot), key) <==> Lookup(snapshot, key) == Lookup(s.scores, key)
  {
    PersistEntries(s, key, score, snapshot, key);
    LinkedWithOneMore(EntriesOf(s.changes, key), Change(key, Lookup(snapshot, key), score));
    assert EntriesOf(s.changes, key) + [] == EntriesOf(s.changes, key);
  }

  /** A second calculation that starts before the first persists any score: both record a first score. */
  lemma {:induction false} OverlappingCalculationsBreakTheJournal(key: Key, score: int)
    ensures var one := Persist(State(map[], []), key, score, map[]);
            && Journal(one, key)
            && EntriesOf(Persist(one, key, score, map[]).changes, key)
               == [Change(key, None, score)] + [Change(key, None, score)]
            && !Journal(Persist(one, key, score, map[]), key)
  {
    var empty := State(map[], []);
    var one := Persist(empty, key, score, map[]);
    PersistEntries(empty, key, score, map[], key);
    PersistKeepsJournalIff(empty, key, score, map[]);
    PersistEntries(one, key, score, map[], key);
    PersistKeepsJournalIff(one, key, score, map[]);
  }

  // ---------------------------------------------------------------- framework scores

  /** Python's round: to the nearest integer, ties to the even one. */
  function Round(x: real): int {
    var low := x.Floor;
    var rest := x - low as real;
    if rest < 0.5 || (rest == 0.5 && low % 2 == 0) then low else low + 1
  }

  lemma {:induction false} RoundIsMonotone(x: real, y: real)
    requires x <= y
    ensures Round(x) <= Round(y)
  {
  }

  /** _control_weight: the weight of the first control with this id, or 10. */
  function ControlWeight(catalog: seq<Control>, id: ControlId): int {
    if catalog == [] then 10 else if catalog[0].key.id == id then catalog[0].weight else ControlWeight(catalog[1..], id)
  }

  lemma {:induction false} WeightIsTheControls(catalog: seq<Control>, i: nat)
    requires WellFormed(catalog) && i < |catalog|
    ensures ControlWeight(catalog, catalog[i].key.id) == catalog[i].weight
  {
    if i > 0 {
      assert catalog[1..][i - 1] == catalog[i];
      WeightIsTheControls(catalog[1..], i - 1);
    }
  }

  /** The weights, and the weighted scores, of the framework's controls among the first n. */
  function WeightedTotal(catalog: seq<Control>, f: Framework, n: nat): int
    requires n <= |catalog|
  {
    if n == 0 then 0
    else WeightedTotal(catalog, f, n - 1)
         + if catalog[n - 1].key.framework == f then ControlWeight(catalog, catalog[n - 1].key.id) else 0
  }

  function WeightedScore(catalog: seq<Control>, scores: seq<int>, f: Framework, n: nat): int
    requires n <= |catalog| == |scores|
  {
    if n == 0 then 0
    else WeightedScore(catalog, scores, f, n - 1)
         + if catalog[n - 1].key.framework == f
           then scores[n - 1] * ControlWeight(catalog, catalog[n - 1].key.id) else 0
  }

  function FrameworkScore(catalog: seq<Control>, scores: seq<int>, f: Framework): int
    requires |catalog| == |scores|
  {
    var total := WeightedTotal(catalog, f, |catalog|);
    Round(WeightedScore(catalog, scores, f, |catalog|) as real / (if total == 0 then 1 else total) as real)
  }

  predicate InFramework(catalog: seq<Control>, f: Framework, i: int) {
    0 <= i < |catalog| && catalog[i].key.framework == f
  }

  lemma {:induction false} TotalIsPositive(catalog: seq<Control>, f: Framework, n: nat)
    requires WellFormed(catalog) && n <= |catalog|
    ensures WeightedTotal(catalog, f, n) >= 0
    ensures (exists i :: i < n && InFramework(catalog, f, i)) ==> WeightedTotal(catalog, f, n) > 0
  {
    if n > 0 {
      WeightIsTheControls(catalog, n - 1);
      TotalIsPositive(catalog, f, n - 1);
    }
  }

  /** Scores ordered control by control give ordered weighted scores. */
  lemma {:induction false} WeightedScoreIsMonotone(
    catalog: seq<Control>, low: seq<int>, high: seq<int>, f: Framework, n: nat)
    requires WellFormed(catalog) && n <= |catalog| == |low| == |high|
    requires forall i :: InFramework(catalog, f, i) ==> low[i] <= high[i]
    ensures WeightedScore(catalog, low, f, n) <= WeightedScore(catalog, high, f, n)
  {
    if n > 0 {
      WeightedScoreIsMonotone(catalog, low, high, f, n - 1);
      WeightIsTheControls(catalog, n - 1);
      if InFramework(catalog, f, n - 1) {
        ScaledIsMonotone(low[n - 1], high[n - 1], catalog[n - 1].weight);
      }
    }
  }

  lemma {:induction false} ScaledIsMonotone(x: int, y: int, w: int)
    requires x <= y && w >= 0
    ensures x * w <= y * w
  {
  }

  lemma {:induction false} QuotientIsMonotone(x: int, y: int, total: int)
    requires x <= y && total > 0
    ensures x as real / total as real <= y as real / total as real
  {
  }

  /** A framework score never rises when control scores of its framework fall, whatever the others do. */
  lemma {:induction false} FrameworkScoreIsMonotone(catalog: seq<Control>, low: seq<int>, high: seq<int>, f: Framework)
    requires WellFormed(catalog) && |catalog| == |low| == |high|
    requires forall i :: InFramework(catalog, f, i) ==> low[i] <= high[i]
    ensures FrameworkScore(catalog, low, f) <= FrameworkScore(catalog, high, f)
  {
    var n := |catalog|;
    WeightedScoreIsMonotone(catalog, low, high, f, n);
    TotalIsPositive(catalog, f, n);
    var total := WeightedTotal(catalog, f, n);
    var divisor := if total == 0 then 1 else total;
    QuotientIsMonotone(WeightedScore(catalog, low, f, n), WeightedScore(catalog, high, f, n), divisor);
    RoundIsMonotone(WeightedScore(catalog, low, f, n) as real / divisor as real,
                    WeightedScore(catalog, high, f, n) as real / divisor as real);
  }

  function Repeated(x: int, n: nat): (s: seq<int>)
    ensures |s| == n && forall i :: 0 <= i < n ==> s[i] == x
  {
    seq(n, _ => x)
  }

  lemma {:induction false} UniformWeightedScore(catalog: seq<Control>, x: int, f: Framework, n: nat)
    requires n <= |catalog|
    ensures WeightedScore(catalog, Repeated(x, |catalog|), f, n) == x * WeightedTotal(catalog, f, n)
  {
    if n > 0 {
      UniformWeightedScore(catalog, x, f, n - 1);
      var w := ControlWeight(catalog, catalog[n - 1].key.id);
      assert x * (WeightedTotal(catalog, f, n - 1) + w) == x * WeightedTotal(catalog, f, n - 1) + x * w;
    }
  }

  lemma {:induction false} QuotientOfMultiple(x: int, total: int, product: int)
    requires total > 0 && product == x * total
    ensures product as real / total as real == x as real
  {
    assert product as real == x as real * total as real;
  }

  /** When all controls of a framework have the same score, so has the framework. */
  lemma {:induction false} UniformFrameworkScore(catalog: seq<Control>, x: int, f: Framework)
    requires WellFormed(catalog) && exists i :: InFramework(catalog, f, i)
    ensures FrameworkScore(catalog, Repeated(x, |catalog|), f) == x
  {
    UniformWeightedScore(catalog, x, f, |catalog|);
    TotalIsPositive(catalog, f, |catalog|);
    QuotientOfMultiple(x, WeightedTotal(catalog, f, |catalog|),
                       WeightedScore(catalog, Repeated(x, |catalog|), f, |catalog|));
  }

  /** Each framework score lies between the lowest and the highest score of its controls. */
  lemma {:induction false} FrameworkScoreIsBetween(
    catalog: seq<Control>, scores: seq<int>, f: Framework, lowest: int, highest: int)
    requires WellFormed(catalog) && |catalog| == |scores| && exists i :: InFramework(catalog, f, i)
    requires forall i :: InFramework(catalog, f, i) ==> lowest <= scores[i] <= highest
    ensures lowest <= FrameworkScore(catalog, scores, f) <= highest
  {
    FrameworkScoreIsMonotone(catalog, Repeated(lowest, |catalog|), scores, f);
    FrameworkScoreIsMonotone(catalog, scores, Repeated(highest, |catalog|), f);
    UniformFrameworkScore(catalog, lowest, f);
    UniformFrameworkScore(catalog, highest, f);
  }

  lemma {:induction false} WeightedScoreOfOne(
    catalog: seq<Control>, scores: seq<int>, f: Framework, i: nat, n: nat)
    requires WellFormed(catalog) && n <= |catalog| == |scores| && i < |catalog|
    requires forall j :: 0 <= j < |scores| && j != i ==> scores[j] == 0
    ensures WeightedScore(catalog, scores, f, n)
         == if i < n && catalog[i].key.framework == f then scores[i] * catalog[i].weight else 0
  {
    if n > 0 {
      WeightedScoreOfOne(catalog, scores, f, i, n - 1);
      WeightIsTheControls(catalog, n - 1);
      if i != n - 1 { ZeroTimes(ControlWeight(catalog, catalog[n - 1].key.id)); }
    }
  }

  lemma {:induction false} ZeroTimes(w: int)
    ensures 0 * w == 0
  {
  }

  lemma {:induction false} WeightedTotalIsSum(catalog: seq<Control>, f: Framework, n: nat)
    requires WellFormed(catalog) && n < |catalog|
    ensures WeightedTotal(catalog, f, 0) == 0
    ensures WeightedTotal(catalog, f, n + 1)
         == WeightedTotal(catalog, f, n) + if catalog[n].key.framework == f then catalog[n].weight else 0
  {
    WeightIsTheControls(catalog, n);
  }

  /** A control counts by its weight: when all others score zero, the framework gets its share of the total weight. */
  lemma {:induction false} ControlCountsByWeight(catalog: seq<Control>, scores: seq<int>, f: Framework, i: nat)
    requires WellFormed(catalog) && |catalog| == |scores| && InFramework(catalog, f, i)
    requires forall j :: 0 <= j < |scores| && j != i ==> scores[j] == 0
    ensures WeightedTotal(catalog, f, |catalog|) > 0
    ensures FrameworkScore(catalog, scores, f)
         == Round((scores[i] * catalog[i].weight) as real / WeightedTotal(catalog, f, |catalog|) as real)
  {
    WeightedScoreOfOne(catalog, scores, f, i, |catalog|);
    TotalIsPositive(catalog, f, |catalog|);
  }

  /** Rounding goes to the nearest integer, and from the middle to the even one. */
  lemma {:induction false} RoundIsNearest(x: real)
    ensures x - 0.5 <= Round(x) as real <= x + 0.5
    ensures Round(x) as real == x - 0.5 || Round(x) as real == x + 0.5 ==> Round(x) % 2 == 0
  {
  }

  /** New evidence of any kind never raises any framework's score. */
  lemma {:induction false} EvidenceNeverHelpsAFramework(
    catalog: seq<Control>, before: seq<Evidence>, row: Evidence, after: seq<Evidence>, f: Framework)
    requires WellFormed(catalog)
    ensures FrameworkScore(catalog, ControlScores(catalog, before + [row] + after), f)
         <= FrameworkScore(catalog, ControlScores(catalog, before + after), f)
  {
    forall i | InFramework(catalog, f, i)
      ensures ControlScores(catalog, before + [row] + after)[i] <= ControlScores(catalog, before + after)[i]
    {
      EvidenceNeverHelps(before, row, after, catalog[i].key.id);
    }
    FrameworkScoreIsMonotone(catalog, ControlScores(catalog, before + [row] + after),
                             ControlScores(catalog, before + after), f);
  }
}
