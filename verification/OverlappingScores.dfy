/**
 Score calculations of one tenant that overlap (services/compliance_evidence_engine.py): each reads the
 stored scores when it begins and saves its controls one by one, in any interleaving with the others.
 */
module OverlappingScores {
  import opened Options
  import opened ScoreJournal

  datatype Event = Begin(job: nat) | Save(job: nat, key: Key, score: int)

  datatype Engine = Engine(state: State, snapshots: map<nat, map<Key, int>>)

  /** Only a calculation that has begun saves anything. */
  function Next(e: Engine, event: Event): Engine {
    match event
    case Begin(job) => e.(snapshots := e.snapshots[job := e.state.scores])
    case Save(job, key, score) =>
      if job in e.snapshots then e.(state := Persist(e.state, key, score, e.snapshots[job])) else e
  }

  function Interleave(run: seq<Event>): Engine {
    if run == [] then Engine(State(map[], []), map[]) else Next(Interleave(run[..|run| - 1]), run[|run| - 1])
  }

  // ---------------------------------------------------------------- the run, without its tables

  predicate HasBegun(run: seq<Event>, job: nat) { Begin(job) in run }

  /** The score saved last for a control: the stored one. */
  function LastSaved(run: seq<Event>, key: Key): Option<int> {
    if run == [] then None
    else
      var before, last := run[..|run| - 1], run[|run| - 1];
      if last.Save? && last.key == key && HasBegun(before, last.job) then Some(last.score) else LastSaved(before, key)
  }

  /** The score a calculation saw for a control when it last began. */
  function Seen(run: seq<Event>, job: nat, key: Key): Option<int> {
    if run == [] then None
    else
      var before, last := run[..|run| - 1], run[|run| - 1];
      if last == Begin(job) then LastSaved(before, key) else Seen(before, job, key)
  }

  /** The event saves a score of this control that differs from the one its calculation saw. */
  predicate Records(before: seq<Event>, event: Event, key: Key) {
    event.Save? && event.key == key && HasBegun(before, event.job) && Seen(before, event.job, key) != Some(event.score)
  }

  /** The last score of a control that differed from what its calculation saw. */
  function LastRecorded(run: seq<Event>, key: Key): Option<int> {
    if run == [] then None
    else
      var before, last := run[..|run| - 1], run[|run| - 1];
      if Records(before, last, key) then Some(last.score) else LastRecorded(before, key)
  }

  /** Each calculation that recorded a change had seen the score recorded last. */
  predicate RecordsInTurn(run: seq<Event>, key: Key) {
    run == []
    || (var before, last := run[..|run| - 1], run[|run| - 1];
        RecordsInTurn(before, key)
        && (Records(before, last, key) ==> Seen(before, last.job, key) == LastRecorded(before, key)))
  }

  // ---------------------------------------------------------------- the tables follow the run

  lemma {:induction false} SnapshotsFollow(run: seq<Event>, job: nat, key: Key)
    ensures job in Interleave(run).snapshots <==> HasBegun(run, job)
    ensures HasBegun(run, job) ==> Lookup(Interleave(run).snapshots[job], key) == Seen(run, job, key)
    ensures Lookup(Interleave(run).state.scores, key) == LastSaved(run, key)
  {
    if run != [] {
      var before, last := run[..|run| - 1], run[|run| - 1];
      assert run == before + [last];
      SnapshotsFollow(before, job, key);
      SnapshotsFollow(before, last.job, key);
    }
  }

  lemma {:induction false} EntriesFollow(run: seq<Event>, key: Key)
    ensures LatestOf(EntriesOf(Interleave(run).state.changes, key)) == LastRecorded(run, key)
    ensures Linked(EntriesOf(Interleave(run).state.changes, key)) <==> RecordsInTurn(run, key)
  {
    if run != [] {
      var before, last := run[..|run| - 1], run[|run| - 1];
      EntriesFollow(before, key);
      if last.Save? {
        SnapshotsFollow(before, last.job, key);
        if HasBegun(before, last.job) { SaveFollows(Interleave(before), last, key); }
      }
    }
  }

  lemma {:induction false} SaveFollows(e: Engine, save: Event, key: Key)
    requires save.Save? && save.job in e.snapshots
    ensures var before, after := EntriesOf(e.state.changes, key), EntriesOf(Next(e, save).state.changes, key);
            var seen := Lookup(e.snapshots[save.job], key);
            if save.key == key && seen != Some(save.score) then
              && LatestOf(after) == Some(save.score)
              && (Linked(after) <==> Linked(before) && seen == LatestOf(before))
            else after == before
  {
    var seen := Lookup(e.snapshots[save.job], save.key);
    PersistEntries(e.state, save.key, save.score, e.snapshots[save.job], key);
    var before := EntriesOf(e.state.changes, key);
    LinkedWithOneMore(before, Change(key, seen, save.score));
    assert before + [] == before;
  }

  // ---------------------------------------------------------------- main results

  /**
   For every interleaving of any calculations, a control's journal is exact at the end if and only if every
   calculation that recorded a change had seen the change recorded last, and the score saved last is the one
   recorded last.
   */
  lemma {:induction false} JournalIsExactIff(run: seq<Event>, key: Key)
    ensures Journal(Interleave(run).state, key)
       <==> RecordsInTurn(run, key) && LastSaved(run, key) == LastRecorded(run, key)
  {
    SnapshotsFollow(run, 0, key);
    EntriesFollow(run, key);
  }

  /** A change recorded against an outdated score is never repaired. */
  lemma {:induction false} WrongTurnIsFinal(run: seq<Event>, more: seq<Event>, key: Key)
    requires !RecordsInTurn(run, key)
    ensures !Journal(Interleave(run + more).state, key)
  {
    StaysOutOfTurn(run, more, key);
    JournalIsExactIff(run + more, key);
  }

  lemma {:induction false} StaysOutOfTurn(run: seq<Event>, more: seq<Event>, key: Key)
    requires !RecordsInTurn(run, key)
    ensures !RecordsInTurn(run + more, key)
  {
    if more == [] {
      assert run + more == run;
    } else {
      StaysOutOfTurn(run, more[..|more| - 1], key);
      assert (run + more)[..|run + more| - 1] == run + more[..|more| - 1];
    }
  }

  /** No calculation saves a control that another has saved since it began. */
  predicate NeverOutdated(run: seq<Event>, key: Key) {
    run == []
    || (var before, last := run[..|run| - 1], run[|run| - 1];
        NeverOutdated(before, key)
        && (last.Save? && last.key == key && HasBegun(before, last.job) ==>
              Seen(before, last.job, key) == LastSaved(before, key)))
  }

  /** It is enough that no calculation works on an outdated score of the control; others may overlap freely. */
  lemma {:induction false} UpToDateRunsAreExact(run: seq<Event>, key: Key)
    requires NeverOutdated(run, key)
    ensures Journal(Interleave(run).state, key)
  {
    RecordsWhatIsSaved(run, key);
    JournalIsExactIff(run, key);
  }

  lemma {:induction false} RecordsWhatIsSaved(run: seq<Event>, key: Key)
    requires NeverOutdated(run, key)
    ensures RecordsInTurn(run, key) && LastSaved(run, key) == LastRecorded(run, key)
  {
    if run != [] { RecordsWhatIsSaved(run[..|run| - 1], key); }
  }

  // ---------------------------------------------------------------- a journal that breaks and recovers

  /** Four calculations of one control; the third save silently restores an outdated score. */
  function Detour(key: Key): seq<Event> {
    [Begin(0), Save(0, key, 100), Begin(1), Begin(2), Save(2, key, 90), Begin(3), Save(1, key, 100)]
  }

  lemma {:induction false} OneMore(run: seq<Event>, event: Event, next: seq<Event>)
    requires next == run + [event]
    ensures Interleave(next) == Next(Interleave(run), event)
  {
    assert next[..|next| - 1] == run;
  }

  /** The table after the detour, row by row. */
  lemma {:induction false} AfterDetour(key: Key)
    ensures var e := Interleave(Detour(key));
            && Lookup(e.state.scores, key) == Some(100) && 3 in e.snapshots && Lookup(e.snapshots[3], key) == Some(90)
            && e.state.changes == [Change(key, None, 100), Change(key, Some(100), 90)]
  {
    var d := Detour(key);
    OneMore([], d[0], d[..1]);
    OneMore(d[..1], d[1], d[..2]);
    OneMore(d[..2], d[2], d[..3]);
    OneMore(d[..3], d[3], d[..4]);
    assert Interleave(d[..4]).state == State(map[key := 100], [Change(key, None, 100)]);
    OneMore(d[..4], d[4], d[..5]);
    OneMore(d[..5], d[5], d[..6]);
    OneMore(d[..6], d[6], d);
  }

  /** The journal is wrong after the detour, and right again once the fourth calculation has saved. */
  lemma {:induction false} JournalCanRecover(key: Key)
    ensures !Journal(Interleave(Detour(key)).state, key)
    ensures Journal(Interleave(Detour(key) + [Save(3, key, 90)]).state, key)
  {
    AfterDetour(key);
    var e := Interleave(Detour(key));
    var first, second := Change(key, None, 100), Change(key, Some(100), 90);
    EntriesOfAppended([], first, key);
    EntriesOfAppended([first], second, key);
    assert [] + [first] == [first] && [first] + [second] == [first, second];
    assert EntriesOf(e.state.changes, key) == [first, second];
    OneMore(Detour(key), Save(3, key, 90), Detour(key) + [Save(3, key, 90)]);
    assert LinkedAt([first, second], 0) && LinkedAt([first, second], 1);
  }
}
