/**
 Undoing scripts/backfill_metabolic_fk_parents.py by manifest: what a rollback restores, and
 whose rows it deletes when several applies have left their manifests.
 */
module MetabolicRollback {
  import opened Options
  import opened Tables
  import opened MetabolicBackfill

  /** Right after its apply, a manifest restores both parent tables exactly. */
  lemma RollbackRestores(sawNeeds: Db, sawCycles: Db, before: Db, after: Db, m: Manifest)
    requires IsBackfilled(sawNeeds, sawCycles, before, after, m)
    ensures RolledBack(after, m) == before
  {
    NeedInsertsAreMarked(sawNeeds);
    CycleInsertsAreMarked(sawCycles);
    MarkedInsertsAreUndone(NeedInserts(sawNeeds), CycleInserts(sawCycles), before, after, m);
  }

  lemma MarkedInsertsAreUndone(needRows: seq<(string, Need)>, cycleRows: seq<(int, Cycle)>,
                               before: Db, after: Db, m: Manifest)
    requires after.receipts == before.receipts
    requires m.needIds == KeysOf(needRows) && m.cycleIds == KeysOf(cycleRows)
    requires InsertAll(before.needs, needRows) == Some(after.needs)
    requires InsertAll(before.cycles, cycleRows) == Some(after.cycles)
    requires AllNeedsMarked(needRows) && AllCyclesMarked(cycleRows)
    ensures RolledBack(after, m) == before
  {
    DeleteUndoesInsert(before.needs, needRows, after.needs, NeedMarked);
    DeleteUndoesInsert(before.cycles, cycleRows, after.cycles, CycleMarked);
  }

  predicate AllNeedsMarked(rows: seq<(string, Need)>) {
    forall i :: 0 <= i < |rows| ==> NeedMarked(rows[i].1)
  }

  predicate AllCyclesMarked(rows: seq<(int, Cycle)>) {
    forall i :: 0 <= i < |rows| ==> CycleMarked(rows[i].1)
  }

  lemma NeedInsertsAreMarked(db: Db)
    ensures AllNeedsMarked(NeedInserts(db))
  {
  }

  lemma CycleInsertsAreMarked(db: Db)
    ensures AllCyclesMarked(CycleInserts(db))
  {
  }

  // ---------------------------------------------------------------- whose rows go

  /**
   After any edits, a rollback deletes every row that its manifest lists and that carries the
   marker, whichever apply wrote it, and no other.
   */
  lemma RollbackDeletesListedMarked(db: Db, m: Manifest)
    ensures var back := RolledBack(db, m);
            && back.receipts == db.receipts
            && (forall k :: k in back.needs <==> k in db.needs && !(k in m.needIds && NeedMarked(db.needs[k])))
            && (forall k :: k in back.needs ==> back.needs[k] == db.needs[k])
            && (forall k :: k in back.cycles <==> k in db.cycles && !(k in m.cycleIds && CycleMarked(db.cycles[k])))
            && (forall k :: k in back.cycles ==> back.cycles[k] == db.cycles[k])
            && RolledBack(back, m) == back
  {
    var back := RolledBack(db, m);
    assert Without(back.needs, m.needIds, NeedMarked) == back.needs;
    assert Without(back.cycles, m.cycleIds, CycleMarked) == back.cycles;
  }

  /** The order of two rollbacks does not matter: each deletes what its own list names. */
  lemma RollbacksCommute(db: Db, m: Manifest, n: Manifest)
    ensures RolledBack(RolledBack(db, m), n) == RolledBack(RolledBack(db, n), m)
    ensures forall k :: k in db.needs && k !in m.needIds ==>
              (k in RolledBack(RolledBack(db, m), n).needs <==> k in RolledBack(db, n).needs)
    ensures forall k :: k in db.cycles && k !in m.cycleIds ==>
              (k in RolledBack(RolledBack(db, m), n).cycles <==> k in RolledBack(db, n).cycles)
  {
    DeletionsCommute(db.needs, m.needIds, n.needIds, NeedMarked);
    DeletionsCommute(db.cycles, m.cycleIds, n.cycleIds, CycleMarked);
  }

  /** The manifests list no id in common. */
  predicate DisjointNeeds(m: Manifest, n: Manifest) {
    forall k :: k in m.needIds ==> k !in n.needIds
  }

  predicate DisjointCycles(m: Manifest, n: Manifest) {
    forall k :: k in m.cycleIds ==> k !in n.cycleIds
  }

  /** What the manifest lists of a database is still there in a later one. */
  ghost predicate NeedsKept(m: Manifest, db: Db, later: Db) {
    forall k :: k in m.needIds && k in db.needs ==> k in later.needs && later.needs[k] == db.needs[k]
  }

  ghost predicate CyclesKept(m: Manifest, db: Db, later: Db) {
    forall k :: k in m.cycleIds && k in db.cycles ==> k in later.cycles && later.cycles[k] == db.cycles[k]
  }

  /**
   After the apply of `n`, rolling back another manifest `m` keeps every row that the apply
   inserted exactly when the two list no id in common.  The marker does not tell them apart.
   */
  lemma OtherRollbackKeepsExactly(sawNeeds: Db, sawCycles: Db, before: Db, after: Db, n: Manifest, m: Manifest)
    requires IsBackfilled(sawNeeds, sawCycles, before, after, n)
    ensures NeedsKept(n, after, RolledBack(after, m)) <==> DisjointNeeds(m, n)
    ensures CyclesKept(n, after, RolledBack(after, m)) <==> DisjointCycles(m, n)
  {
    ListedAreMarked(sawNeeds, sawCycles, before, after, n);
    MarkedKeptExactly(after, n, m);
  }

  lemma MarkedKeptExactly(after: Db, n: Manifest, m: Manifest)
    requires forall k :: k in n.needIds ==> k in after.needs && NeedMarked(after.needs[k])
    requires forall c :: c in n.cycleIds ==> c in after.cycles && CycleMarked(after.cycles[c])
    ensures NeedsKept(n, after, RolledBack(after, m)) <==> DisjointNeeds(m, n)
    ensures CyclesKept(n, after, RolledBack(after, m)) <==> DisjointCycles(m, n)
  {
  }

  lemma ListedAreMarked(sawNeeds: Db, sawCycles: Db, before: Db, after: Db, n: Manifest)
    requires IsBackfilled(sawNeeds, sawCycles, before, after, n)
    ensures forall k :: k in n.needIds ==> k in after.needs && NeedMarked(after.needs[k])
    ensures forall c :: c in n.cycleIds ==> c in after.cycles && CycleMarked(after.cycles[c])
  {
    NeedInsertsAreMarked(sawNeeds);
    CycleInsertsAreMarked(sawCycles);
    RowsAreMarked(NeedInserts(sawNeeds), CycleInserts(sawCycles), before, after);
  }

  lemma RowsAreMarked(needRows: seq<(string, Need)>, cycleRows: seq<(int, Cycle)>, before: Db, after: Db)
    requires InsertAll(before.needs, needRows) == Some(after.needs)
    requires InsertAll(before.cycles, cycleRows) == Some(after.cycles)
    requires AllNeedsMarked(needRows) && AllCyclesMarked(cycleRows)
    ensures forall k :: k in KeysOf(needRows) ==> k in after.needs && NeedMarked(after.needs[k])
    ensures forall c :: c in KeysOf(cycleRows) ==> c in after.cycles && CycleMarked(after.cycles[c])
  {
    InsertAllMeaning(before.needs, needRows);
    InsertAllMeaning(before.cycles, cycleRows);
  }

  /** A receipt names the need, or the cycle. */
  predicate NamesNeed(receipts: seq<Receipt>, k: string) {
    exists r :: r in receipts && r.needId == k
  }

  predicate NamesCycle(receipts: seq<Receipt>, c: int) {
    exists r :: r in receipts && r.cycleId == c
  }

  /** The ids that a manifest lists: missing from the table while a receipt names them. */
  lemma ListedExactly(sawNeeds: Db, sawCycles: Db, before: Db, after: Db, n: Manifest)
    requires IsBackfilled(sawNeeds, sawCycles, before, after, n)
    ensures forall k :: k in n.needIds <==>
              k !in sawNeeds.needs && NamesNeed(sawNeeds.receipts, k)
    ensures forall c :: c in n.cycleIds <==>
              c !in sawCycles.cycles && NamesCycle(sawCycles.receipts, c)
  {
    NeedIdsListed(sawNeeds);
    CycleIdsListed(sawCycles);
  }

  lemma NeedIdsListed(db: Db)
    ensures forall k :: k in KeysOf(NeedInserts(db)) <==> k !in db.needs && NamesNeed(db.receipts, k)
  {
    MissingNeedsAreListed(db);
    BatchKeys(MissingNeeds(db), NeedRows(db), KeyOfGroup);
    forall k ensures k in KeysOf(NeedInserts(db)) <==> k !in db.needs && NamesNeed(db.receipts, k) {
      if k !in db.needs && NamesNeed(db.receipts, k) {
        var r :| r in db.receipts && r.needId == k;
        assert (r.cycleId, r.needId) in NeedGroups(db);
        assert KeyOfGroup((r.cycleId, r.needId)) == k;
      }
      if k in KeysOf(NeedInserts(db)) {
        var g :| g in NeedRows(db) && KeyOfGroup(g) == k;
        assert g in NeedGroups(db);
      }
    }
  }

  lemma CycleIdsListed(db: Db)
    ensures forall c :: c in KeysOf(CycleInserts(db)) <==> c !in db.cycles && NamesCycle(db.receipts, c)
  {
    MissingCyclesAreListed(db);
    BatchKeys(MissingCycles(db), CycleRows(db), KeyOfCycle);
    forall c ensures c in KeysOf(CycleInserts(db)) <==> c !in db.cycles && NamesCycle(db.receipts, c) {
      if c !in db.cycles && NamesCycle(db.receipts, c) {
        assert c in MissingCycleIds(db) && KeyOfCycle(c) == c;
      }
      if c in KeysOf(CycleInserts(db)) {
        var x :| x in CycleRows(db) && KeyOfCycle(x) == c;
        assert c in MissingCycleIds(db);
      }
    }
  }

  /**
   The check to make before an apply while an older manifest `m` is kept: rolling `m` back
   afterwards spares the new rows exactly when every id it lists is in its table, or named by
   no receipt.
   */
  lemma OlderManifestIsSafeExactly(sawNeeds: Db, sawCycles: Db, before: Db, after: Db, n: Manifest, m: Manifest)
    requires IsBackfilled(sawNeeds, sawCycles, before, after, n)
    ensures NeedsKept(n, after, RolledBack(after, m))
            <==> forall k :: k in m.needIds ==> k in sawNeeds.needs || !NamesNeed(sawNeeds.receipts, k)
    ensures CyclesKept(n, after, RolledBack(after, m))
            <==> forall c :: c in m.cycleIds ==> c in sawCycles.cycles || !NamesCycle(sawCycles.receipts, c)
  {
    OtherRollbackKeepsExactly(sawNeeds, sawCycles, before, after, n, m);
    NeedIdsListed(sawNeeds);
    CycleIdsListed(sawCycles);
  }

  /**
   The input: apply, roll back, apply again after a new receipt, roll the first manifest back
   once more.  The rows of the second apply are gone.
   */
  lemma OldManifestDeletesNewRows() returns (after: Db, m: Manifest, after2: Db, n: Manifest)
    ensures var r1, r2 := Receipt("r1", "n", 1, "t1", None), Receipt("r2", "n", 1, "t2", None);
            var before := Db([r1], map[], map[]);
            var again := RolledBack(after, m).(receipts := [r1, r2]);
            && IsBackfilled(before, before, before, after, m)
            && IsBackfilled(again, again, again, after2, n)
            && "n" in n.needIds && "n" in after2.needs && "n" !in RolledBack(after2, m).needs
            && 1 in n.cycleIds && 1 in after2.cycles && 1 !in RolledBack(after2, m).cycles
  {
    var r1, r2 := Receipt("r1", "n", 1, "t1", None), Receipt("r2", "n", 1, "t2", None);
    var before, again := Db([r1], map[], map[]), Db([r1, r2], map[], map[]);
    after, m := OneNeedApplied(before, r1);
    RollbackRestores(before, before, before, after, m);
    after2, n := OneNeedApplied(again, r1);
    ListedAreMarked(again, again, again, after2, n);
  }

  lemma OneNeedApplied(db: Db, r: Receipt) returns (after: Db, m: Manifest)
    requires db.needs == map[] && db.cycles == map[] && r in db.receipts
    requires forall x :: x in db.receipts ==> x.needId == r.needId && x.cycleId == r.cycleId
    ensures IsBackfilled(db, db, db, after, m)
    ensures r.needId in m.needIds && r.cycleId in m.cycleIds
  {
    assert !TwoCycles(NeedGroups(db));
    after, m := AppliedTo(db, db, db);
    NeedIdsListed(db);
    CycleIdsListed(db);
    assert NamesNeed(db.receipts, r.needId) && NamesCycle(db.receipts, r.cycleId);
  }
}
