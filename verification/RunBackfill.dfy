/**
 scripts/backfill_runtime_runs.py: one parent row for every run that only its events
 mention, written in one transaction, and the DELETE that takes those rows out again.
 */
module RunBackfill {
  import opened Options
  import opened Ordering
  import opened Tables

  const MARK: string := "(fila reconstruida por backfill_runtime_runs)"
  const HEAD: string := "ciclo autónomo del supervisor: comprobación de modelo sin petición humana "
  const DESCRIPTION: string := HEAD + MARK

  /** Columns that may be NULL are options; `run_id` is NOT NULL in both tables. */
  datatype Event = Event(runId: string, createdAt: Option<string>)

  datatype Run = Run(
    source: Option<string>, userInput: string, status: string, createdAt: Option<string>, closedAt: Option<string>)

  datatype Db = Db(events: seq<Event>, runs: map<string, Run>)

  /** TypeError: the summary printed before the transaction slices a missing time. */
  datatype Outcome = Committed | Aborted | TypeError

  // ---------------------------------------------------------------- the selection

  function OrphanIds(db: Db): set<string> {
    set e | e in db.events && e.runId !in db.runs :: e.runId
  }

  /** The times that MIN and MAX see: they skip NULL. */
  function TimesOf(db: Db, id: string): set<string> {
    set e | e in db.events && e.runId == id && e.createdAt.Some? :: e.createdAt.value
  }

  function Rebuilt(db: Db, id: string): Run {
    var times := TimesOf(db, id);
    if times == {} then Run(Some("runtime"), DESCRIPTION, "completed", None, None)
    else Run(Some("runtime"), DESCRIPTION, "completed", Some(MinText(times)), Some(MaxText(times)))
  }

  function RebuiltRuns(db: Db): map<string, Run> {
    map id | id in OrphanIds(db) :: Rebuilt(db, id)
  }

  function SelectedIds(db: Db): (ids: seq<string>)
    ensures forall id :: id in ids <==> id in RebuiltRuns(db)
  {
    StrLessIsStrictTotalOrder();
    Sorted(OrphanIds(db), StrLess)
  }

  function KeyOfRun(id: string): string { id }

  /** `analizar`, as the rows that are going to be inserted. */
  function Selection(db: Db): seq<(string, Run)> {
    Batch(SelectedIds(db), RebuiltRuns(db), KeyOfRun)
  }

  predicate HasUntimedRow(rows: seq<(string, Run)>) {
    exists i :: 0 <= i < |rows| && UntimedRun(rows[i].1)
  }

  predicate UntimedRun(run: Run) {
    run.createdAt.None? || run.closedAt.None?
  }

  /** SELECT COUNT(*): the events that still have no parent. */
  function Remaining(events: seq<Event>, runs: map<string, Run>): nat {
    if events == [] then 0
    else (if events[0].runId in runs then 0 else 1) + Remaining(events[1..], runs)
  }

  lemma {:induction false} RemainingIsZero(events: seq<Event>, runs: map<string, Run>)
    ensures Remaining(events, runs) == 0 <==> forall e :: e in events ==> e.runId in runs
  {
    if events != [] {
      RemainingIsZero(events[1..], runs);
      assert forall e :: e in events <==> e == events[0] || e in events[1..];
    }
  }

  // ---------------------------------------------------------------- the commands

  /** An orphan run all of whose events lack a time. */
  ghost predicate Untimed(saw: Db) {
    exists id :: id in OrphanIds(saw) && TimesOf(saw, id) == {}
  }

  /**
   The condition under which the transaction commits: nobody has written a selected run since
   the selection, and nobody has added an event of another run without a parent.
   */
  ghost predicate StillValid(saw: Db, before: Db) {
    && (forall id :: id in OrphanIds(saw) ==> id !in before.runs)
    && (forall id :: id in OrphanIds(before) ==> id in OrphanIds(saw))
  }

  ghost predicate IsBackfilled(saw: Db, before: Db, after: Db) {
    && after.events == before.events
    && InsertAll(before.runs, Selection(saw)) == Some(after.runs)
  }

  class Database {
    var events: seq<Event>
    var runs: map<string, Run>

    constructor (db: Db)
      ensures State() == db
    {
      events, runs := db.events, db.runs;
    }

    function State(): Db
      reads this
    {
      Db(events, runs)
    }

    /** `main --apply`: the selection (`saw`) precedes the write lock, others may write in between. */
    method Backfill(saw: Db) returns (outcome: Outcome)
      modifies this`runs
      ensures outcome == TypeError <==> Untimed(saw)
      ensures outcome == Committed <==> !Untimed(saw) && StillValid(saw, old(State()))
      ensures outcome == Committed ==> IsBackfilled(saw, old(State()), State())
      ensures outcome != Committed ==> State() == old(State())
    {
      var rows := Selection(saw);
      UntimedExactly(saw);
      CommitsExactly(saw, State());
      if HasUntimedRow(rows) {
        return TypeError;
      }
      outcome := Transaction(rows);
    }

    /** BEGIN IMMEDIATE .. COMMIT: the inserts, then the recheck. */
    method Transaction(rows: seq<(string, Run)>) returns (outcome: Outcome)
      modifies this`runs
      ensures outcome == Committed <==> Commits(rows, old(State()))
      ensures outcome == Committed ==> InsertAll(old(runs), rows) == Some(runs)
      ensures outcome != Committed ==> outcome == Aborted && runs == old(runs)
    {
      var saved := runs;
      for i := 0 to |rows|
        invariant InsertAll(saved, rows[..i]) == Some(runs)
      {
        InsertStep(saved, rows, i, runs);
        if rows[i].0 in runs {
          runs := saved;
          return Aborted;
        }
        runs := runs[rows[i].0 := rows[i].1];
      }
      assert rows[..|rows|] == rows;
      if Remaining(events, runs) != 0 {
        runs := saved;
        return Aborted;
      }
      outcome := Committed;
    }

    /** `main --revertir`: the rows that satisfy the WHERE clause go, one by one, and are counted. */
    method Revert() returns (deleted: nat)
      modifies this`runs
      ensures State() == Reverted(old(State()))
      ensures forall k :: k in runs <==> k in old(runs) && !IsMarked(old(runs)[k])
      ensures forall k :: k in runs ==> runs[k] == old(runs)[k]
      ensures forall k :: k in old(runs) && old(runs)[k].source != Some("runtime") ==> k in runs
      ensures deleted == |set k | k in old(runs) && IsMarked(old(runs)[k])|
    {
      var todo, gone := runs.Keys, {};
      deleted := 0;
      while todo != {}
        invariant todo <= runs.Keys && gone !! runs.Keys && gone + runs.Keys == old(runs).Keys
        invariant forall k :: k in runs ==> runs[k] == old(runs)[k]
        invariant forall k :: k in runs && k !in todo ==> !Reconstructed(old(runs)[k])
        invariant forall k :: k in gone ==> Reconstructed(old(runs)[k])
        invariant deleted == |gone|
        decreases |todo|
      {
        var id :| id in todo;
        todo := todo - {id};
        if Reconstructed(runs[id]) {
          runs, gone := runs - {id}, gone + {id};
          deleted := deleted + 1;
        }
      }
      RevertedAre(old(State()), State(), gone);
    }
  }

  lemma RevertedAre(before: Db, after: Db, gone: set<string>)
    requires after.events == before.events
    requires gone !! after.runs.Keys && gone + after.runs.Keys == before.runs.Keys
    requires forall k :: k in after.runs ==> after.runs[k] == before.runs[k] && !Reconstructed(before.runs[k])
    requires forall k :: k in gone ==> Reconstructed(before.runs[k])
    ensures after == Reverted(before)
    ensures forall k :: k in after.runs <==> k in before.runs && !IsMarked(before.runs[k])
    ensures gone == set k | k in before.runs && IsMarked(before.runs[k])
  {
    WhereClauseMeaning();
    assert forall k :: k in before.runs <==> k in gone || k in after.runs;
    assert after.runs == Reverted(before).runs;
  }

  // ---------------------------------------------------------------- when it commits

  lemma SelectionIsListed(db: Db)
    ensures RebuiltRuns(db).Keys == OrphanIds(db) && Lists(SelectedIds(db), RebuiltRuns(db))
  {
    StrLessIsStrictTotalOrder();
    SortedHasNoRepeats(SelectedIds(db), StrLess);
  }

  lemma UntimedExactly(saw: Db)
    ensures HasUntimedRow(Selection(saw)) <==> Untimed(saw)
  {
    SelectionIsListed(saw);
    UntimedAmong(SelectedIds(saw), RebuiltRuns(saw));
    forall id | id in OrphanIds(saw) ensures UntimedRun(RebuiltRuns(saw)[id]) <==> TimesOf(saw, id) == {} {
      assert RebuiltRuns(saw)[id] == Rebuilt(saw, id);
    }
  }

  lemma UntimedAmong(ids: seq<string>, rebuilt: map<string, Run>)
    requires Lists(ids, rebuilt)
    ensures HasUntimedRow(Batch(ids, rebuilt, KeyOfRun)) <==> exists id :: id in rebuilt && UntimedRun(rebuilt[id])
  {
    var rows := Batch(ids, rebuilt, KeyOfRun);
    if i :| 0 <= i < |rows| && UntimedRun(rows[i].1) {
      assert ids[i] in rebuilt;
    }
    if id :| id in rebuilt && UntimedRun(rebuilt[id]) {
      var i :| 0 <= i < |ids| && ids[i] == id;
      assert UntimedRun(rows[i].1);
    }
  }

  /** Every insert goes in, and the recheck finds no event without a parent. */
  predicate Commits(rows: seq<(string, Run)>, before: Db) {
    var after := InsertAll(before.runs, rows);
    after.Some? && Remaining(before.events, after.value) == 0
  }

  lemma CommitsExactly(saw: Db, before: Db)
    ensures Commits(Selection(saw), before) <==> StillValid(saw, before)
  {
    SelectionIsListed(saw);
    CommitsAmong(SelectedIds(saw), RebuiltRuns(saw), before);
  }

  lemma CommitsAmong(ids: seq<string>, rebuilt: map<string, Run>, before: Db)
    requires Lists(ids, rebuilt)
    ensures Commits(Batch(ids, rebuilt, KeyOfRun), before)
            <==> (forall id :: id in rebuilt.Keys ==> id !in before.runs)
                 && (forall id :: id in OrphanIds(before) ==> id in rebuilt.Keys)
  {
    var rows := Batch(ids, rebuilt, KeyOfRun);
    BatchConflictExactly(ids, rebuilt, KeyOfRun, before.runs);
    assert forall id :: id in rebuilt ==> KeyOfRun(id) == id;
    if InsertAll(before.runs, rows).Some? {
      var after := InsertAll(before.runs, rows).value;
      BatchInserted(ids, rebuilt, KeyOfRun, before.runs, after);
      assert forall id :: id in after <==> id in before.runs || id in rebuilt;
      RemainingIsZero(before.events, after);
      NoneRemains(before, after, rebuilt.Keys);
    }
  }

  lemma NoneRemains(before: Db, after: map<string, Run>, added: set<string>)
    requires forall id :: id in after <==> id in before.runs || id in added
    ensures (forall e :: e in before.events ==> e.runId in after)
            <==> forall id :: id in OrphanIds(before) ==> id in added
  {
    forall e | e in before.events && e.runId !in before.runs ensures e.runId in OrphanIds(before) {
    }
  }

  /** Without other writers it commits, unless an orphan run has no time at all. */
  lemma QuietRunCommits(db: Db)
    ensures StillValid(db, db)
  {
  }

  // ---------------------------------------------------------------- what it leaves

  /** No orphan event is left, no earlier row changes, and only selected runs appear. */
  lemma BackfillLeavesNoOrphan(saw: Db, before: Db, after: Db)
    requires IsBackfilled(saw, before, after) && StillValid(saw, before)
    ensures forall e :: e in after.events ==> e.runId in after.runs
    ensures forall k :: k in before.runs ==> k in after.runs && after.runs[k] == before.runs[k]
    ensures forall k :: k in after.runs && k !in before.runs <==> k in OrphanIds(saw)
    ensures forall k :: k in OrphanIds(saw) ==> after.runs[k] == Rebuilt(saw, k)
  {
    SelectionAppears(saw, before.runs, after.runs);
    forall e | e in after.events ensures e.runId in after.runs {
      assert e.runId in before.runs || e.runId in OrphanIds(before);
    }
  }

  lemma SelectionAppears(saw: Db, before: map<string, Run>, after: map<string, Run>)
    requires InsertAll(before, Selection(saw)) == Some(after)
    requires forall id :: id in OrphanIds(saw) ==> id !in before
    ensures forall k :: k in before ==> k in after && after[k] == before[k]
    ensures forall k :: k in after && k !in before <==> k in OrphanIds(saw)
    ensures forall k :: k in OrphanIds(saw) ==> after[k] == Rebuilt(saw, k)
  {
    var rebuilt := RebuiltRuns(saw);
    assert rebuilt.Keys == OrphanIds(saw);
    BatchInserted(SelectedIds(saw), rebuilt, KeyOfRun, before, after);
    assert forall id :: id in rebuilt ==> KeyOfRun(id) == id;
    forall k | k in OrphanIds(saw) ensures k in after && after[k] == Rebuilt(saw, k) {
      assert rebuilt[k] == Rebuilt(saw, k);
    }
  }

  /** Each inserted row opens at the first and closes at the last of its events' times. */
  lemma InsertedRowSpansItsEvents(saw: Db, before: Db, after: Db, e: Event)
    requires IsBackfilled(saw, before, after) && StillValid(saw, before)
    requires e in saw.events && e.runId !in saw.runs && e.createdAt.Some?
    ensures e.runId in after.runs
    ensures var run := after.runs[e.runId];
            && run.createdAt.Some? && run.closedAt.Some?
            && !StrLess(e.createdAt.value, run.createdAt.value) && !StrLess(run.closedAt.value, e.createdAt.value)
            && (exists x :: x in saw.events && x.runId == e.runId && x.createdAt == run.createdAt)
            && (exists x :: x in saw.events && x.runId == e.runId && x.createdAt == run.closedAt)
            && run.source == Some("runtime") && run.userInput == DESCRIPTION && run.status == "completed"
  {
    BackfillLeavesNoOrphan(saw, before, after);
    var id := e.runId;
    assert id in OrphanIds(saw);
    var times := TimesOf(saw, id);
    assert e.createdAt.value in times;
    var run := Rebuilt(saw, id);
    assert run.createdAt.value in times && run.closedAt.value in times;
  }

  // ---------------------------------------------------------------- LIKE and the revert

  /** LIKE folds the ASCII letters only. */
  function Fold(c: char): char {
    if 'A' <= c <= 'Z' then 'a' + (c - 'A') else c
  }

  predicate Like(pattern: string, s: string)
    decreases |pattern| + |s|
  {
    if pattern == "" then s == ""
    else if pattern[0] == '%' then Like(pattern[1..], s) || (s != "" && Like(pattern, s[1..]))
    else s != "" && Same(pattern[0], s[0]) && Like(pattern[1..], s[1..])
  }

  /** A pattern character against a text character: `_` stands for any one. */
  predicate Same(p: char, c: char) {
    p == '_' || Fold(p) == Fold(c)
  }

  /** The two characters are equal, the same ASCII letter in either case, or the first is the wildcard. */
  lemma SameExactly(p: char, c: char)
    ensures Same(p, c) <==>
              p == '_' || p == c || ('A' <= p <= 'Z' && c as int == p as int + 32)
              || ('a' <= p <= 'z' && c as int == p as int - 32)
  {
  }

  /** The characters of `mark` meet those of `s` from position `i` on. */
  predicate OccursAt(mark: string, s: string, i: nat) {
    i + |mark| <= |s| && forall k :: 0 <= k < |mark| ==> Same(mark[k], s[i + k])
  }

  lemma {:induction false} LikeAnything(s: string)
    ensures Like("%", s)
  {
    if s != "" {
      LikeAnything(s[1..]);
    }
  }

  lemma {:induction false} LikePrefix(mark: string, s: string)
    requires '%' !in mark
    ensures Like(mark + "%", s) <==> OccursAt(mark, s, 0)
  {
    if mark == "" {
      assert mark + "%" == "%";
      LikeAnything(s);
    } else {
      var pattern := mark + "%";
      assert pattern[1..] == mark[1..] + "%" && pattern[0] == mark[0] && mark[0] in mark;
      if s != "" {
        LikePrefix(mark[1..], s[1..]);
        if OccursAt(mark, s, 0) {
          assert forall k :: 0 <= k < |mark[1..]| ==> mark[1..][k] == mark[k + 1] && s[1..][k] == s[k + 1];
        }
        if Same(mark[0], s[0]) && OccursAt(mark[1..], s[1..], 0) {
          assert forall k :: 1 <= k < |mark| ==> mark[k] == mark[1..][k - 1] && s[k] == s[1..][k - 1];
        }
      }
    }
  }

  /** LIKE '%mark%' finds exactly the texts in which the mark occurs somewhere. */
  lemma {:induction false} LikeFindsTheMark(mark: string, s: string)
    requires '%' !in mark
    ensures Like("%" + mark + "%", s) <==> exists i: nat :: OccursAt(mark, s, i)
    decreases |s|
  {
    var pattern := "%" + mark + "%";
    assert pattern[1..] == mark + "%" && pattern[0] == '%';
    LikePrefix(mark, s);
    if s != "" {
      LikeFindsTheMark(mark, s[1..]);
      OccurrencesShift(mark, s);
    } else {
      assert forall i: nat :: OccursAt(mark, s, i) ==> i == 0;
    }
  }

  lemma OccurrencesShift(mark: string, s: string)
    requires s != ""
    ensures (exists i: nat :: OccursAt(mark, s, i)) <==>
              OccursAt(mark, s, 0) || exists i: nat :: OccursAt(mark, s[1..], i)
  {
    if i: nat :| OccursAt(mark, s, i) {
      if i > 0 {
        assert OccursAt(mark, s[1..], i - 1);
      }
    }
    if i: nat :| OccursAt(mark, s[1..], i) {
      assert OccursAt(mark, s, i + 1);
    }
  }

  /** The WHERE clause of the revert. */
  predicate Reconstructed(run: Run) {
    run.source == Some("runtime") && Like("%" + MARK + "%", run.userInput)
  }

  function Reverted(db: Db): Db {
    db.(runs := map k | k in db.runs && !Reconstructed(db.runs[k]) :: db.runs[k])
  }

  lemma MarkHasNoPercent()
    ensures '%' !in MARK
  {
    var a, b, c := "(fila reconstruida", " por backfill", "_runtime_runs)";
    assert MARK == a + b + c;
    assert '%' !in a;
    assert '%' !in b;
    assert '%' !in c;
  }

  /** The row was written by the runtime and its text holds the mark, `_` and ASCII case aside. */
  ghost predicate IsMarked(run: Run) {
    run.source == Some("runtime") && exists i: nat :: OccursAt(MARK, run.userInput, i)
  }

  lemma WhereClauseMeaning()
    ensures forall run :: Reconstructed(run) <==> IsMarked(run)
  {
    MarkHasNoPercent();
    forall run ensures Reconstructed(run) <==> IsMarked(run) {
      LikeFindsTheMark(MARK, run.userInput);
    }
  }

  lemma MarkEndsTheDescription(mark: string, head: string, text: string)
    requires text == head + mark
    ensures OccursAt(mark, text, |head|)
  {
    assert forall k :: 0 <= k < |mark| ==> mark[k] == text[|head| + k];
  }

  lemma RebuiltIsReconstructed(db: Db, id: string)
    ensures Reconstructed(Rebuilt(db, id))
  {
    MarkHasNoPercent();
    LikeFindsTheMark(MARK, DESCRIPTION);
    MarkEndsTheDescription(MARK, HEAD, DESCRIPTION);
    assert OccursAt(MARK, DESCRIPTION, |HEAD|);
  }

  /** The revert undoes a backfill exactly when no earlier row satisfied its WHERE clause. */
  lemma RevertUndoesBackfillExactly(saw: Db, before: Db, after: Db)
    requires IsBackfilled(saw, before, after) && StillValid(saw, before)
    ensures Reverted(after) == before <==> forall k :: k in before.runs ==> !Reconstructed(before.runs[k])
  {
    BackfillLeavesNoOrphan(saw, before, after);
    var back := Reverted(after);
    forall k | k in after.runs && k !in before.runs ensures Reconstructed(after.runs[k]) {
      RebuiltIsReconstructed(saw, k);
    }
    if forall k :: k in before.runs ==> !Reconstructed(before.runs[k]) {
      assert forall k :: k in back.runs <==> k in before.runs;
      assert back.runs == before.runs;
    }
    if k :| k in before.runs && Reconstructed(before.runs[k]) {
      assert k !in back.runs;
    }
  }

  // ---------------------------------------------------------------- inputs that fail

  /** An orphan run without any time: the summary line fails before the transaction. */
  lemma UntimedOrphan()
    ensures Untimed(Db([Event("x", None)], map[]))
  {
    var e := Event("x", None);
    var db := Db([e], map[]);
    assert e == db.events[0];
    assert "x" in OrphanIds(db) && TimesOf(db, "x") == {};
  }

  /** An orphan event added between selection and lock: the recheck gives up. */
  lemma LateEventAborts()
    ensures var saw := Db([], map[]);
            !StillValid(saw, saw.(events := [Event("x", Some("t"))]))
  {
    var saw := Db([], map[]);
    var before := saw.(events := [Event("x", Some("t"))]);
    assert before.events[0].runId in OrphanIds(before);
  }

  /** An earlier run of the runtime that quotes the mark: the revert takes it along. */
  lemma QuotingRunIsReverted() returns (before: Db, after: Db)
    ensures var text := "see " + MARK;
            var run := Run(Some("runtime"), text, "completed", None, None);
            && before == Db([Event("x", Some("t"))], map["early" := run])
            && StillValid(before, before) && IsBackfilled(before, before, after)
            && "early" in after.runs && "early" !in Reverted(after).runs
  {
    var text := "see " + MARK;
    var run := Run(Some("runtime"), text, "completed", None, None);
    before := Db([Event("x", Some("t"))], map["early" := run]);
    QuietRunCommits(before);
    CommitsExactly(before, before);
    after := before.(runs := InsertAll(before.runs, Selection(before)).value);
    BackfillLeavesNoOrphan(before, before, after);
    MarkEndsTheDescription(MARK, "see ", text);
    assert OccursAt(MARK, text, |"see "|);
    WhereClauseMeaning();
  }
}
