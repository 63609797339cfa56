/**
 scripts/backfill_metabolic_fk_parents.py: rebuilding the need and cycle rows that receipts
 refer to, from the receipts themselves, and undoing it by manifest.
 */
module MetabolicBackfill {
  import opened Options
  import opened Ordering
  import opened Tables

  const MARKER: string := "metabolic_fk_parent_backfill_v1"

  /** The JSON of an evidence column: written by a backfill, or anything else. */
  datatype Evidence = Backfill(evidenceReceipt: Option<string>, receiptCount: nat) | Other(text: string)

  datatype Receipt = Receipt(
    receiptId: string, needId: string, cycleId: int, startedAt: string, finishedAt: Option<string>)

  datatype Need = Need(
    cycleId: int, kind: string, evidence: Evidence, status: string, createdAt: string, finishedAt: Option<string>)

  datatype Cycle = Cycle(startedAt: string, finishedAt: Option<string>, status: string, mode: string, summary: Evidence)

  datatype Db = Db(receipts: seq<Receipt>, needs: map<string, Need>, cycles: map<int, Cycle>)

  datatype Manifest = Manifest(marker: string, cycleIds: seq<int>, needIds: seq<string>)

  datatype Outcome = Applied(manifest: Manifest) | KeyConflict

  // ---------------------------------------------------------------- the queries

  /** A group of receipts whose need is missing: its cycle and its need. */
  type Group = (int, string)

  /** ORDER BY cycle_id, need_id. */
  predicate GroupLess(a: Group, b: Group) {
    a.0 < b.0 || (a.0 == b.0 && StrLess(a.1, b.1))
  }

  predicate IntLess(a: int, b: int) { a < b }

  lemma OrdersAreStrictAndTotal()
    ensures StrictTotalOrder(IntLess) && StrictTotalOrder(GroupLess)
  {
    StrLessIsStrictTotalOrder();
  }

  function NeedGroups(db: Db): set<Group> {
    set r | r in db.receipts && r.needId !in db.needs :: (r.cycleId, r.needId)
  }

  function MissingCycleIds(db: Db): set<int> {
    set r | r in db.receipts && r.cycleId !in db.cycles :: r.cycleId
  }

  /** `_missing_needs`, the keys of its rows. */
  function MissingNeeds(db: Db): (groups: seq<Group>) {
    OrdersAreStrictAndTotal();
    Sorted(NeedGroups(db), GroupLess)
  }

  /** `_missing_cycles`, the keys of its rows. */
  function MissingCycles(db: Db): (ids: seq<int>) {
    OrdersAreStrictAndTotal();
    Sorted(MissingCycleIds(db), IntLess)
  }

  predicate InGroup(r: Receipt, g: Group) {
    r.cycleId == g.0 && r.needId == g.1
  }

  function Count(receipts: seq<Receipt>, p: Receipt -> bool): nat {
    if receipts == [] then 0 else (if p(receipts[0]) then 1 else 0) + Count(receipts[1..], p)
  }

  /** `need_id.rpartition("-")`: the prefix, if the suffix has at least eight characters. */
  function Kind(needId: string): string {
    var k := LastDash(needId);
    if k >= 0 && |needId| - k - 1 >= 8 then needId[..k] else needId
  }

  function LastDash(s: string): (k: int)
    ensures -1 <= k < |s|
  {
    if s == "" then -1 else if s[|s| - 1] == '-' then |s| - 1 else LastDash(s[..|s| - 1])
  }

  function GroupOf(g: Group): Receipt -> bool {
    r => InGroup(r, g)
  }

  function StartsOf(db: Db, g: Group): set<string> {
    set r | r in db.receipts && InGroup(r, g) :: r.startedAt
  }

  function IdsOf(db: Db, g: Group): set<string> {
    set r | r in db.receipts && InGroup(r, g) :: r.receiptId
  }

  lemma GroupHasReceipts(db: Db, g: Group)
    requires g in NeedGroups(db)
    ensures StartsOf(db, g) != {} && IdsOf(db, g) != {}
  {
    var r :| r in db.receipts && InGroup(r, g);
    assert r.startedAt in StartsOf(db, g) && r.receiptId in IdsOf(db, g);
  }

  /** The need row rebuilt for a group: MIN(started_at), MIN(receipt_id) and COUNT(*). */
  function NeedRow(db: Db, g: Group): Need
    requires g in NeedGroups(db)
  {
    GroupHasReceipts(db, g);
    var first := MinText(StartsOf(db, g));
    Need(g.0, Kind(g.1), Backfill(Some(MinText(IdsOf(db, g))), Count(db.receipts, GroupOf(g))),
         "historical_receipt_only", first, Some(first))
  }

  predicate OfCycle(r: Receipt, c: int) {
    r.cycleId == c
  }

  function CycleOf(c: int): Receipt -> bool {
    r => OfCycle(r, c)
  }

  function CycleStarts(db: Db, c: int): set<string> {
    set r | r in db.receipts && OfCycle(r, c) :: r.startedAt
  }

  /** COALESCE(finished_at, started_at) of the receipts of a cycle. */
  function EndOf(r: Receipt): string {
    r.finishedAt.GetOr(r.startedAt)
  }

  function CycleEnds(db: Db, c: int): set<string> {
    set r | r in db.receipts && OfCycle(r, c) :: EndOf(r)
  }

  lemma CycleHasReceipts(db: Db, c: int)
    requires c in MissingCycleIds(db)
    ensures CycleStarts(db, c) != {} && CycleEnds(db, c) != {}
  {
    var r :| r in db.receipts && OfCycle(r, c);
    assert r.startedAt in CycleStarts(db, c) && EndOf(r) in CycleEnds(db, c);
  }

  /** The cycle row rebuilt from its receipts: first start, last end, and their number. */
  function CycleRow(db: Db, c: int): Cycle
    requires c in MissingCycleIds(db)
  {
    CycleHasReceipts(db, c);
    Cycle(MinText(CycleStarts(db, c)), Some(MaxText(CycleEnds(db, c))),
          "historical_receipt_only", "historical", Backfill(None, Count(db.receipts, CycleOf(c))))
  }

  // ---------------------------------------------------------------- the commands

  /** The rows that can be rebuilt, by group and by cycle. */
  function NeedRows(db: Db): map<Group, Need> {
    map g | g in NeedGroups(db) :: NeedRow(db, g)
  }

  function CycleRows(db: Db): map<int, Cycle> {
    map c | c in MissingCycleIds(db) :: CycleRow(db, c)
  }

  function KeyOfGroup(g: Group): string { g.1 }

  function KeyOfCycle(c: int): int { c }

  /** The rows `apply` inserts into `metabolic_needs`, in its order. */
  function NeedInserts(db: Db): seq<(string, Need)> {
    Batch(MissingNeeds(db), NeedRows(db), KeyOfGroup)
  }

  /** The rows `apply` inserts into `metabolic_cycle`, in its order. */
  function CycleInserts(db: Db): seq<(int, Cycle)> {
    Batch(MissingCycles(db), CycleRows(db), KeyOfCycle)
  }

  /** The row carries the marker of this script. */
  predicate NeedMarked(n: Need) { n.evidence.Backfill? }

  predicate CycleMarked(c: Cycle) { c.summary.Backfill? }

  /**
   What a successful apply does to the database it locked (`before`), when its two queries
   had read `sawNeeds` and `sawCycles`.
   */
  ghost predicate IsBackfilled(sawNeeds: Db, sawCycles: Db, before: Db, after: Db, m: Manifest) {
    IsFilled(NeedInserts(sawNeeds), CycleInserts(sawCycles), before, after, m)
  }

  ghost predicate IsFilled(needRows: seq<(string, Need)>, cycleRows: seq<(int, Cycle)>,
                           before: Db, after: Db, m: Manifest) {
    && after.receipts == before.receipts
    && m == Manifest(MARKER, KeysOf(cycleRows), KeysOf(needRows))
    && InsertAll(before.cycles, cycleRows) == Some(after.cycles)
    && InsertAll(before.needs, needRows) == Some(after.needs)
  }

  /** Every insert of both batches meets a free key. */
  predicate AllGoIn(needRows: seq<(string, Need)>, cycleRows: seq<(int, Cycle)>, before: Db) {
    InsertAll(before.needs, needRows).Some? && InsertAll(before.cycles, cycleRows).Some?
  }

  /** An orphan need appears in receipts of two cycles. */
  ghost predicate TwoCycles(groups: set<Group>) {
    exists a, b :: a in groups && b in groups && a.1 == b.1 && a.0 != b.0
  }

  /** Another writer has created, since the queries, a parent that they found missing. */
  ghost predicate CreatedMeanwhile(sawNeeds: Db, sawCycles: Db, before: Db) {
    NeedTaken(NeedGroups(sawNeeds), before.needs) || CycleTaken(MissingCycleIds(sawCycles), before.cycles)
  }

  ghost predicate NeedTaken(groups: set<Group>, needs: map<string, Need>) {
    exists g :: g in groups && g.1 in needs
  }

  ghost predicate CycleTaken(ids: set<int>, cycles: map<int, Cycle>) {
    exists c :: c in ids && c in cycles
  }

  function RolledBack(db: Db, m: Manifest): Db {
    db.(needs := Without(db.needs, m.needIds, NeedMarked), cycles := Without(db.cycles, m.cycleIds, CycleMarked))
  }

  class Database {
    var receipts: seq<Receipt>
    var needs: map<string, Need>
    var cycles: map<int, Cycle>

    constructor (db: Db)
      ensures State() == db
    {
      receipts, needs, cycles := db.receipts, db.needs, db.cycles;
    }

    function State(): Db
      reads this
    {
      Db(receipts, needs, cycles)
    }

    /** The queries run before the transaction: other writers may have acted since. */
    method Apply(sawNeeds: Db, sawCycles: Db) returns (outcome: Outcome)
      modifies this`needs, this`cycles
      ensures outcome == KeyConflict <==>
                TwoCycles(NeedGroups(sawNeeds)) || CreatedMeanwhile(sawNeeds, sawCycles, old(State()))
      ensures outcome == KeyConflict ==> State() == old(State())
      ensures outcome.Applied? ==> IsBackfilled(sawNeeds, sawCycles, old(State()), State(), outcome.manifest)
    {
      ConflictExactly(sawNeeds, sawCycles, State());
      outcome := Fill(NeedInserts(sawNeeds), CycleInserts(sawCycles));
    }

    /** The transaction: every row of both tables goes in, or none. */
    method Fill(needRows: seq<(string, Need)>, cycleRows: seq<(int, Cycle)>) returns (outcome: Outcome)
      modifies this`needs, this`cycles
      ensures outcome.Applied? <==> AllGoIn(needRows, cycleRows, old(State()))
      ensures outcome.Applied? ==> IsFilled(needRows, cycleRows, old(State()), State(), outcome.manifest)
      ensures outcome == KeyConflict ==> State() == old(State())
    {
      var savedNeeds, savedCycles := needs, cycles;
      for i := 0 to |cycleRows|
        invariant needs == old(needs)
        invariant InsertAll(old(cycles), cycleRows[..i]) == Some(cycles)
      {
        InsertStep(old(cycles), cycleRows, i, cycles);
        if cycleRows[i].0 in cycles {
          // The primary key is taken: the transaction rolls back.
          cycles := savedCycles;
          return KeyConflict;
        }
        cycles := cycles[cycleRows[i].0 := cycleRows[i].1];
      }
      assert cycleRows[..|cycleRows|] == cycleRows;
      for i := 0 to |needRows|
        invariant InsertAll(old(cycles), cycleRows) == Some(cycles)
        invariant InsertAll(old(needs), needRows[..i]) == Some(needs)
      {
        InsertStep(old(needs), needRows, i, needs);
        if needRows[i].0 in needs {
          needs, cycles := savedNeeds, savedCycles;
          return KeyConflict;
        }
        needs := needs[needRows[i].0 := needRows[i].1];
      }
      assert needRows[..|needRows|] == needRows;
      outcome := Applied(Manifest(MARKER, KeysOf(cycleRows), KeysOf(needRows)));
    }

    /** ValueError on another script's manifest; otherwise listed rows that are still marked go. */
    method Rollback(m: Manifest) returns (ok: bool)
      modifies this`needs, this`cycles
      ensures ok == (m.marker == MARKER)
      ensures State() == if ok then RolledBack(old(State()), m) else old(State())
    {
      if m.marker != MARKER {
        return false;
      }
      var before := State();
      for i := 0 to |m.needIds|
        invariant receipts == before.receipts && cycles == before.cycles
        invariant needs == Without(before.needs, m.needIds[..i], NeedMarked)
      {
        var id := m.needIds[i];
        DeleteStep(before.needs, m.needIds, i, NeedMarked);
        if id in needs && NeedMarked(needs[id]) {
          needs := needs - {id};
        }
      }
      assert m.needIds[..|m.needIds|] == m.needIds;
      for i := 0 to |m.cycleIds|
        invariant receipts == before.receipts && needs == Without(before.needs, m.needIds, NeedMarked)
        invariant cycles == Without(before.cycles, m.cycleIds[..i], CycleMarked)
      {
        var id := m.cycleIds[i];
        DeleteStep(before.cycles, m.cycleIds, i, CycleMarked);
        if id in cycles && CycleMarked(cycles[id]) {
          cycles := cycles - {id};
        }
      }
      assert m.cycleIds[..|m.cycleIds|] == m.cycleIds;
      ok := true;
    }
  }

  // ---------------------------------------------------------------- when apply fails

  lemma ConflictExactly(sawNeeds: Db, sawCycles: Db, before: Db)
    ensures AllGoIn(NeedInserts(sawNeeds), CycleInserts(sawCycles), before)
            <==> !TwoCycles(NeedGroups(sawNeeds)) && !CreatedMeanwhile(sawNeeds, sawCycles, before)
  {
    NeedsGoInExactly(sawNeeds, before.needs);
    CyclesGoInExactly(sawCycles, before.cycles);
  }

  lemma MissingNeedsAreListed(db: Db)
    ensures NeedRows(db).Keys == NeedGroups(db) && Lists(MissingNeeds(db), NeedRows(db))
  {
    OrdersAreStrictAndTotal();
    SortedHasNoRepeats(MissingNeeds(db), GroupLess);
  }

  lemma MissingCyclesAreListed(db: Db)
    ensures CycleRows(db).Keys == MissingCycleIds(db) && Lists(MissingCycles(db), CycleRows(db))
  {
    OrdersAreStrictAndTotal();
    SortedHasNoRepeats(MissingCycles(db), IntLess);
  }

  lemma NeedsGoInExactly(saw: Db, needs: map<string, Need>)
    ensures InsertAll(needs, NeedInserts(saw)).Some?
            <==> !TwoCycles(NeedGroups(saw)) && !NeedTaken(NeedGroups(saw), needs)
  {
    MissingNeedsAreListed(saw);
    NeedConflictExactly(MissingNeeds(saw), NeedRows(saw), needs);
  }

  lemma CyclesGoInExactly(saw: Db, cycles: map<int, Cycle>)
    ensures InsertAll(cycles, CycleInserts(saw)).Some? <==> !CycleTaken(MissingCycleIds(saw), cycles)
  {
    MissingCyclesAreListed(saw);
    CycleConflictExactly(MissingCycles(saw), CycleRows(saw), cycles);
  }

  lemma NeedConflictExactly(groups: seq<Group>, rebuilt: map<Group, Need>, needs: map<string, Need>)
    requires Lists(groups, rebuilt)
    ensures InsertAll(needs, Batch(groups, rebuilt, KeyOfGroup)).Some?
            <==> !TwoCycles(rebuilt.Keys) && !NeedTaken(rebuilt.Keys, needs)
  {
    BatchConflictExactly(groups, rebuilt, KeyOfGroup, needs);
    assert forall g :: g in rebuilt ==> KeyOfGroup(g) == g.1;
    if SharedKey(rebuilt, KeyOfGroup) {
      var a, b :| a in rebuilt && b in rebuilt && a != b && KeyOfGroup(a) == KeyOfGroup(b);
      assert a.0 != b.0;
    }
  }

  lemma CycleConflictExactly(ids: seq<int>, rebuilt: map<int, Cycle>, cycles: map<int, Cycle>)
    requires Lists(ids, rebuilt)
    ensures InsertAll(cycles, Batch(ids, rebuilt, KeyOfCycle)).Some? <==> !CycleTaken(rebuilt.Keys, cycles)
  {
    BatchConflictExactly(ids, rebuilt, KeyOfCycle, cycles);
    assert forall c :: c in rebuilt ==> KeyOfCycle(c) == c;
  }

  /** The key conflict, at two receipts that give one need to the cycles 1 and 2. */
  lemma TwoCyclesConflict()
    ensures var db := Db([Receipt("r1", "n", 1, "t", None), Receipt("r2", "n", 2, "t", None)], map[], map[]);
            TwoCycles(NeedGroups(db)) && !AllGoIn(NeedInserts(db), CycleInserts(db), db)
  {
    var a, b := Receipt("r1", "n", 1, "t", None), Receipt("r2", "n", 2, "t", None);
    var db := Db([a, b], map[], map[]);
    assert a == db.receipts[0] && b == db.receipts[1];
    assert (a.cycleId, a.needId) in NeedGroups(db) && (b.cycleId, b.needId) in NeedGroups(db);
    ConflictExactly(db, db, db);
  }

  /** The key conflict, at a cycle that another writer adds between query and transaction. */
  lemma CreatedMeanwhileConflict(cycle: Cycle)
    ensures var saw := Db([Receipt("r1", "n", 1, "t", None)], map[], map[]);
            var before := saw.(cycles := map[1 := cycle]);
            CreatedMeanwhile(saw, saw, before) && !AllGoIn(NeedInserts(saw), CycleInserts(saw), before)
  {
    var r := Receipt("r1", "n", 1, "t", None);
    var saw := Db([r], map[], map[]);
    var before := saw.(cycles := map[1 := cycle]);
    assert r == saw.receipts[0];
    assert 1 in MissingCycleIds(saw) && 1 in before.cycles;
    ConflictExactly(saw, saw, before);
  }

  /** Without other writers, apply fails exactly when an orphan need is claimed by two cycles. */
  lemma QuietConflict(db: Db)
    ensures !CreatedMeanwhile(db, db, db)
  {
    forall g | g in NeedGroups(db) ensures g.1 !in db.needs {
    }
  }

  // ---------------------------------------------------------------- what apply achieves

  /** The receipts whose parents the queries found missing get them; no existing row changes. */
  lemma ApplyInserts(sawNeeds: Db, sawCycles: Db, before: Db, after: Db, m: Manifest)
    requires IsBackfilled(sawNeeds, sawCycles, before, after, m)
    ensures forall k :: k in before.needs ==> k in after.needs && after.needs[k] == before.needs[k]
    ensures forall k :: k in before.cycles ==> k in after.cycles && after.cycles[k] == before.cycles[k]
    ensures forall g :: g in NeedGroups(sawNeeds) ==> g.1 in after.needs && after.needs[g.1] == NeedRow(sawNeeds, g)
    ensures forall c :: c in MissingCycleIds(sawCycles) ==> c in after.cycles && after.cycles[c] == CycleRow(sawCycles, c)
    ensures forall k :: k in after.needs && k !in before.needs ==> Names(NeedGroups(sawNeeds), k)
    ensures forall c :: c in after.cycles && c !in before.cycles ==> c in MissingCycleIds(sawCycles)
  {
    ApplyInsertsNeeds(sawNeeds, before.needs, after.needs);
    ApplyInsertsCycles(sawCycles, before.cycles, after.cycles);
  }

  lemma ApplyInsertsNeeds(saw: Db, before: map<string, Need>, after: map<string, Need>)
    requires InsertAll(before, NeedInserts(saw)) == Some(after)
    ensures forall k :: k in before ==> k in after && after[k] == before[k]
    ensures forall g :: g in NeedGroups(saw) ==> g.1 in after && after[g.1] == NeedRow(saw, g)
    ensures forall k :: k in after && k !in before ==> Names(NeedGroups(saw), k)
  {
    BatchInserted(MissingNeeds(saw), NeedRows(saw), KeyOfGroup, before, after);
    forall g | g in NeedGroups(saw) ensures g.1 in after && after[g.1] == NeedRow(saw, g) {
      assert NeedRows(saw)[g] == NeedRow(saw, g) && KeyOfGroup(g) == g.1;
    }
    forall k | k in after && k !in before ensures Names(NeedGroups(saw), k) {
      var g :| g in NeedRows(saw) && KeyOfGroup(g) == k;
      assert g in NeedGroups(saw) && g.1 == k;
    }
  }

  predicate Names(groups: set<Group>, k: string) {
    exists g :: g in groups && g.1 == k
  }

  lemma ApplyInsertsCycles(saw: Db, before: map<int, Cycle>, after: map<int, Cycle>)
    requires InsertAll(before, CycleInserts(saw)) == Some(after)
    ensures forall k :: k in before ==> k in after && after[k] == before[k]
    ensures forall c :: c in MissingCycleIds(saw) ==> c in after && after[c] == CycleRow(saw, c)
    ensures forall c :: c in after && c !in before ==> c in MissingCycleIds(saw)
  {
    BatchInserted(MissingCycles(saw), CycleRows(saw), KeyOfCycle, before, after);
    forall c | c in MissingCycleIds(saw) ensures c in after && after[c] == CycleRow(saw, c) {
      assert CycleRows(saw)[c] == CycleRow(saw, c) && KeyOfCycle(c) == c;
    }
    forall k | k in after && k !in before ensures k in MissingCycleIds(saw) {
      var c :| c in CycleRows(saw) && KeyOfCycle(c) == k;
      assert c in MissingCycleIds(saw);
    }
  }

  /**
   The gap is closed: every receipt has its need and its cycle, every inserted need has a
   cycle, and nothing is missing any more.
   */
  lemma ApplyClosesTheGap(before: Db, after: Db, m: Manifest)
    requires IsBackfilled(before, before, before, after, m)
    ensures forall r :: r in after.receipts ==> r.needId in after.needs && r.cycleId in after.cycles
    ensures forall k :: k in after.needs && k !in before.needs ==> after.needs[k].cycleId in after.cycles
    ensures MissingNeeds(after) == [] && MissingCycles(after) == []
  {
    ApplyInserts(before, before, before, after, m);
    forall r | r in after.receipts ensures r.needId in after.needs && r.cycleId in after.cycles {
      ReceiptIsCovered(before, r);
    }
    forall k | k in after.needs && k !in before.needs ensures after.needs[k].cycleId in after.cycles {
      var g :| g in NeedGroups(before) && g.1 == k;
      assert after.needs[k].cycleId == g.0;
    }
    assert NeedGroups(after) == {} && MissingCycleIds(after) == {};
    NothingMissing(after);
  }

  /** Of the receipts that a query saw, one lacks its parent exactly when the parent has been deleted since. */
  lemma ApplyCoversWhatItSaw(sawNeeds: Db, sawCycles: Db, before: Db, after: Db, m: Manifest, r: Receipt)
    requires IsBackfilled(sawNeeds, sawCycles, before, after, m)
    ensures r in sawNeeds.receipts ==>
              (r.needId !in after.needs <==> r.needId in sawNeeds.needs && r.needId !in before.needs)
    ensures r in sawCycles.receipts ==>
              (r.cycleId !in after.cycles <==> r.cycleId in sawCycles.cycles && r.cycleId !in before.cycles)
  {
    ApplyInserts(sawNeeds, sawCycles, before, after, m);
    if r in sawNeeds.receipts {
      ReceiptIsCovered(sawNeeds, r);
    }
    if r in sawCycles.receipts {
      ReceiptIsCovered(sawCycles, r);
    }
  }

  /**
   With other writers an inserted need has its cycle exactly when the cycle is in the locked
   database, or the second query found it missing.
   */
  lemma InsertedNeedHasCycleExactly(sawNeeds: Db, sawCycles: Db, before: Db, after: Db, m: Manifest, k: string)
    requires IsBackfilled(sawNeeds, sawCycles, before, after, m) && k in after.needs && k !in before.needs
    ensures after.needs[k].cycleId in after.cycles <==>
              after.needs[k].cycleId in before.cycles || after.needs[k].cycleId in MissingCycleIds(sawCycles)
    ensures (after.needs[k].cycleId, k) in NeedGroups(sawNeeds)
  {
    ApplyInserts(sawNeeds, sawCycles, before, after, m);
    var g :| g in NeedGroups(sawNeeds) && g.1 == k;
    assert after.needs[g.1] == NeedRow(sawNeeds, g);
  }

  /** A cycle deleted between queries and transaction: its need is inserted without it. */
  lemma NeedWithoutCycle(cycle: Cycle) returns (after: Db, m: Manifest)
    ensures var saw := Db([Receipt("r1", "n", 1, "t", None)], map[], map[1 := cycle]);
            var before := Db([], map[], map[]);
            && IsBackfilled(saw, saw, before, after, m)
            && "n" in after.needs && after.needs["n"].cycleId == 1 && 1 !in after.cycles && CyclesCovered(after)
  {
    var r := Receipt("r1", "n", 1, "t", None);
    var saw := Db([r], map[], map[1 := cycle]);
    var before := Db([], map[], map[]);
    assert r == saw.receipts[0];
    assert (1, "n") in NeedGroups(saw) && MissingCycleIds(saw) == {};
    after, m := AppliedTo(saw, saw, before);
    ApplyInserts(saw, saw, before, after, m);
    assert after.needs["n"] == NeedRow(saw, (1, "n"));
  }

  /** No receipt of a database lacks its need. */
  ghost predicate NeedsCovered(db: Db) {
    forall r :: r in db.receipts ==> r.needId in db.needs
  }

  ghost predicate CyclesCovered(db: Db) {
    forall r :: r in db.receipts ==> r.cycleId in db.cycles
  }

  /**
   With other writers the gap is closed exactly when the queries listed every parent that is
   missing at the lock.  There is no recheck: otherwise apply succeeds and leaves orphans.
   */
  lemma ApplyClosesTheGapExactly(sawNeeds: Db, sawCycles: Db, before: Db, after: Db, m: Manifest)
    requires IsBackfilled(sawNeeds, sawCycles, before, after, m)
    ensures NeedsCovered(after) <==> forall g :: g in NeedGroups(before) ==> Names(NeedGroups(sawNeeds), g.1)
    ensures CyclesCovered(after) <==> forall c :: c in MissingCycleIds(before) ==> c in MissingCycleIds(sawCycles)
  {
    ApplyInserts(sawNeeds, sawCycles, before, after, m);
    NeedsCoveredExactly(before, after, NeedGroups(sawNeeds));
    CyclesCoveredExactly(before, after, MissingCycleIds(sawCycles));
  }

  lemma NeedsCoveredExactly(before: Db, after: Db, listed: set<Group>)
    requires after.receipts == before.receipts
    requires forall k :: k in after.needs <==> k in before.needs || Names(listed, k)
    ensures NeedsCovered(after) <==> forall g :: g in NeedGroups(before) ==> Names(listed, g.1)
  {
    forall r | r in before.receipts && r.needId !in before.needs
      ensures (r.cycleId, r.needId) in NeedGroups(before)
    {
    }
  }

  lemma CyclesCoveredExactly(before: Db, after: Db, listed: set<int>)
    requires after.receipts == before.receipts
    requires forall c :: c in after.cycles <==> c in before.cycles || c in listed
    ensures CyclesCovered(after) <==> forall c :: c in MissingCycleIds(before) ==> c in listed
  {
    forall r | r in before.receipts && r.cycleId !in before.cycles
      ensures r.cycleId in MissingCycleIds(before)
    {
    }
  }

  /** A receipt written between queries and transaction stays an orphan, and apply succeeds. */
  lemma LateReceiptStaysOrphan() returns (after: Db, m: Manifest)
    ensures var saw := Db([], map[], map[]);
            var before := saw.(receipts := [Receipt("r1", "n", 1, "t", None)]);
            IsBackfilled(saw, saw, before, after, m) && !NeedsCovered(after) && !CyclesCovered(after)
  {
    var r := Receipt("r1", "n", 1, "t", None);
    var saw := Db([], map[], map[]);
    var before := saw.(receipts := [r]);
    after, m := AppliedTo(saw, saw, before);
    ApplyInserts(saw, saw, before, after, m);
    assert r == after.receipts[0];
    assert "n" !in after.needs && 1 !in after.cycles;
  }

  /** The result of an apply that meets no conflict. */
  lemma AppliedTo(sawNeeds: Db, sawCycles: Db, before: Db) returns (after: Db, m: Manifest)
    requires !TwoCycles(NeedGroups(sawNeeds)) && !CreatedMeanwhile(sawNeeds, sawCycles, before)
    ensures IsBackfilled(sawNeeds, sawCycles, before, after, m)
  {
    ConflictExactly(sawNeeds, sawCycles, before);
    after, m := FilledFrom(NeedInserts(sawNeeds), CycleInserts(sawCycles), before);
  }

  lemma FilledFrom(needRows: seq<(string, Need)>, cycleRows: seq<(int, Cycle)>, before: Db)
    returns (after: Db, m: Manifest)
    requires AllGoIn(needRows, cycleRows, before)
    ensures IsFilled(needRows, cycleRows, before, after, m)
  {
    after := before.(needs := InsertAll(before.needs, needRows).value,
                     cycles := InsertAll(before.cycles, cycleRows).value);
    m := Manifest(MARKER, KeysOf(cycleRows), KeysOf(needRows));
  }

  lemma ReceiptIsCovered(db: Db, r: Receipt)
    requires r in db.receipts
    ensures r.needId in db.needs || (r.cycleId, r.needId) in NeedGroups(db)
    ensures r.cycleId in db.cycles || r.cycleId in MissingCycleIds(db)
  {
  }

  lemma NothingMissing(db: Db)
    requires NeedGroups(db) == {} && MissingCycleIds(db) == {}
    ensures MissingNeeds(db) == [] && MissingCycles(db) == []
  {
  }

  /** A second apply succeeds and inserts nothing. */
  lemma SecondApplyInsertsNothing(before: Db, after: Db, m: Manifest, again: Db, m2: Manifest)
    requires IsBackfilled(before, before, before, after, m) && IsBackfilled(after, after, after, again, m2)
    ensures again == after && m2.needIds == [] && m2.cycleIds == []
    ensures !TwoCycles(NeedGroups(after))
  {
    ApplyClosesTheGap(before, after, m);
    assert NeedInserts(after) == [] && CycleInserts(after) == [];
    ConflictExactly(after, after, after);
  }

  /** Each rebuilt need carries the first start and the first id among the receipts of its group. */
  lemma RebuiltNeedComesFromReceipts(sawNeeds: Db, sawCycles: Db, before: Db, after: Db, m: Manifest, r: Receipt)
    requires IsBackfilled(sawNeeds, sawCycles, before, after, m)
    requires r in sawNeeds.receipts && r.needId !in sawNeeds.needs
    ensures r.needId in after.needs
    ensures var n := after.needs[r.needId];
            && n.cycleId == r.cycleId && NeedMarked(n)
            && !StrLess(r.startedAt, n.createdAt)
            && (exists x :: x in sawNeeds.receipts && x.needId == r.needId && x.startedAt == n.createdAt)
            && n.evidence.evidenceReceipt.Some?
            && !StrLess(r.receiptId, n.evidence.evidenceReceipt.value)
            && (exists x :: x in sawNeeds.receipts && x.needId == r.needId
                            && n.evidence.evidenceReceipt == Some(x.receiptId))
  {
    ApplyInserts(sawNeeds, sawCycles, before, after, m);
    var g := (r.cycleId, r.needId);
    assert g in NeedGroups(sawNeeds);
    var n := NeedRow(sawNeeds, g);
    assert after.needs[r.needId] == n;
    assert InGroup(r, g);
    assert r.startedAt in StartsOf(sawNeeds, g) && r.receiptId in IdsOf(sawNeeds, g);
    assert n.createdAt in StartsOf(sawNeeds, g);
    assert n.evidence.evidenceReceipt.value in IdsOf(sawNeeds, g);
  }

  /** Each rebuilt cycle spans its receipts: it starts no later and ends no earlier than any. */
  lemma RebuiltCycleSpansItsReceipts(sawNeeds: Db, sawCycles: Db, before: Db, after: Db, m: Manifest, r: Receipt)
    requires IsBackfilled(sawNeeds, sawCycles, before, after, m)
    requires r in sawCycles.receipts && r.cycleId !in sawCycles.cycles
    ensures r.cycleId in after.cycles
    ensures var c := after.cycles[r.cycleId];
            && CycleMarked(c) && c.finishedAt.Some?
            && !StrLess(r.startedAt, c.startedAt) && !StrLess(c.finishedAt.value, EndOf(r))
            && (exists x :: x in sawCycles.receipts && x.cycleId == r.cycleId && x.startedAt == c.startedAt)
            && (exists x :: x in sawCycles.receipts && x.cycleId == r.cycleId && Some(EndOf(x)) == c.finishedAt)
  {
    ApplyInserts(sawNeeds, sawCycles, before, after, m);
    var id := r.cycleId;
    assert id in MissingCycleIds(sawCycles);
    var c := CycleRow(sawCycles, id);
    assert after.cycles[id] == c;
    assert OfCycle(r, id);
    assert r.startedAt in CycleStarts(sawCycles, id) && EndOf(r) in CycleEnds(sawCycles, id);
    assert c.startedAt in CycleStarts(sawCycles, id);
    assert c.finishedAt.value in CycleEnds(sawCycles, id);
  }

  /** How many receipts meet a condition, by their positions. */
  lemma {:induction false} CountIsCardinality(receipts: seq<Receipt>, p: Receipt -> bool)
    ensures Count(receipts, p) == |set i | 0 <= i < |receipts| && p(receipts[i])|
    decreases |receipts|
  {
    var after := set i | 0 <= i < |receipts| && p(receipts[i]);
    if receipts == [] {
      assert after == {};
    } else {
      var n := |receipts| - 1;
      var init, last := receipts[..n], receipts[n];
      CountIsCardinality(init, p);
      CountAppend(init, last, p);
      assert receipts == init + [last];
      var before := set i | 0 <= i < |init| && p(init[i]);
      assert after == if p(last) then before + {n} else before;
    }
  }

  lemma {:induction false} CountAppend(receipts: seq<Receipt>, r: Receipt, p: Receipt -> bool)
    ensures Count(receipts + [r], p) == Count(receipts, p) + (if p(r) then 1 else 0)
  {
    if receipts == [] {
      assert receipts + [r] == [r] && [r][1..] == [];
    } else {
      CountAppend(receipts[1..], r, p);
      assert (receipts + [r])[1..] == receipts[1..] + [r] && (receipts + [r])[0] == receipts[0];
    }
  }

  /** The other columns of a rebuilt need: its kind, the closed status, and its number of receipts. */
  lemma RebuiltNeedColumns(sawNeeds: Db, sawCycles: Db, before: Db, after: Db, m: Manifest, r: Receipt)
    requires IsBackfilled(sawNeeds, sawCycles, before, after, m)
    requires r in sawNeeds.receipts && r.needId !in sawNeeds.needs
    ensures r.needId in after.needs
    ensures var n, rs := after.needs[r.needId], sawNeeds.receipts;
            && n.kind == Kind(r.needId) && n.status == "historical_receipt_only"
            && n.finishedAt == Some(n.createdAt) && n.evidence.Backfill?
            && n.evidence.receiptCount
               == |set i | 0 <= i < |rs| && rs[i].cycleId == r.cycleId && rs[i].needId == r.needId|
  {
    ApplyInserts(sawNeeds, sawCycles, before, after, m);
    var g := (r.cycleId, r.needId);
    assert g in NeedGroups(sawNeeds) && after.needs[r.needId] == NeedRow(sawNeeds, g);
    GroupCount(sawNeeds.receipts, g);
  }

  lemma GroupCount(rs: seq<Receipt>, g: Group)
    ensures Count(rs, GroupOf(g)) == |set i | 0 <= i < |rs| && rs[i].cycleId == g.0 && rs[i].needId == g.1|
  {
    CountIsCardinality(rs, GroupOf(g));
    assert (set i | 0 <= i < |rs| && GroupOf(g)(rs[i]))
           == set i | 0 <= i < |rs| && rs[i].cycleId == g.0 && rs[i].needId == g.1;
  }

  /** The other columns of a rebuilt cycle. */
  lemma RebuiltCycleColumns(sawNeeds: Db, sawCycles: Db, before: Db, after: Db, m: Manifest, r: Receipt)
    requires IsBackfilled(sawNeeds, sawCycles, before, after, m)
    requires r in sawCycles.receipts && r.cycleId !in sawCycles.cycles
    ensures r.cycleId in after.cycles
    ensures var c, rs := after.cycles[r.cycleId], sawCycles.receipts;
            && c.status == "historical_receipt_only" && c.mode == "historical" && c.summary.Backfill?
            && c.summary.receiptCount == |set i | 0 <= i < |rs| && rs[i].cycleId == r.cycleId|
  {
    ApplyInserts(sawNeeds, sawCycles, before, after, m);
    assert r.cycleId in MissingCycleIds(sawCycles);
    assert after.cycles[r.cycleId] == CycleRow(sawCycles, r.cycleId);
    CycleCount(sawCycles.receipts, r.cycleId);
  }

  lemma CycleCount(rs: seq<Receipt>, c: int)
    ensures Count(rs, CycleOf(c)) == |set i | 0 <= i < |rs| && rs[i].cycleId == c|
  {
    CountIsCardinality(rs, CycleOf(c));
    assert (set i | 0 <= i < |rs| && CycleOf(c)(rs[i])) == set i | 0 <= i < |rs| && rs[i].cycleId == c;
  }

  /** The kind of a generated need id is its prefix before the random suffix. */
  lemma {:induction false} LastDashOf(prefix: string, suffix: string)
    requires '-' !in suffix
    ensures LastDash(prefix + "-" + suffix) == |prefix|
    decreases |suffix|
  {
    var s := prefix + "-" + suffix;
    if suffix != "" {
      assert s[..|s| - 1] == prefix + "-" + suffix[..|suffix| - 1];
      LastDashOf(prefix, suffix[..|suffix| - 1]);
    }
  }

  /** An id without a dash is its own kind. */
  lemma {:induction false} KindWithoutDash(id: string)
    requires '-' !in id
    ensures Kind(id) == id
  {
    NoLastDash(id);
  }

  lemma {:induction false} NoLastDash(s: string)
    requires '-' !in s
    ensures LastDash(s) == -1
    decreases |s|
  {
    if s != "" {
      NoLastDash(s[..|s| - 1]);
    }
  }

  lemma KindOfGeneratedId(prefix: string, suffix: string)
    requires '-' !in suffix
    ensures Kind(prefix + "-" + suffix) == if |suffix| >= 8 then prefix else prefix + "-" + suffix
  {
    LastDashOf(prefix, suffix);
  }
}
