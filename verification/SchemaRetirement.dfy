/**
 Retiring empty tables and undoing it: `plan`, `apply` and `rollback` of
 scripts/apply_schema_retirements.py.  The recheck and the drop of a table are two statements
 of their own: other writers may change the rows of existing tables before either.
 */
module SchemaRetirement {
  import opened Options

  /** The CREATE statement of a table; SQLite never stores an empty one. */
  type Sql = s: string | s != "" witness "CREATE TABLE t(x)"

  datatype Table = Table(schema: Sql, rows: seq<string>)

  type Catalogue = map<string, Table>

  /** A retirement migration: the tables it drops, and whether it needs the identity anchor. */
  datatype Migration = Migration(name: string, tables: seq<string>, needsAnchor: bool)

  datatype Action = Absent | Drop | RefuseHasRows

  datatype Entry = Entry(table: string, rows: Option<nat>, action: Action, schema: Option<Sql>)

  datatype Planned = Planned(migration: string, needsAnchor: bool, blocked: bool, tables: seq<Entry>)

  datatype Plan = Plan(migrations: seq<Planned>, wouldDrop: seq<string>, refused: seq<(string, nat)>)

  datatype Manifest = Manifest(plan: Plan, applied: bool, dropped: seq<string>)

  // ---------------------------------------------------------------- planning

  /** None stands for the error of counting the rows of a table that does not exist. */
  function RowCount(c: Catalogue, table: string): Option<nat> {
    if table in c then Some(|c[table].rows|) else None
  }

  function SchemaOf(c: Catalogue, table: string): Option<Sql> {
    if table in c then Some(c[table].schema) else None
  }

  function EntryFor(c: Catalogue, table: string): Entry {
    var rows := RowCount(c, table);
    Entry(table, rows, if rows.None? then Absent else if rows.value == 0 then Drop else RefuseHasRows,
          SchemaOf(c, table))
  }

  function Entries(c: Catalogue, tables: seq<string>): seq<Entry> {
    if tables == [] then [] else [EntryFor(c, tables[0])] + Entries(c, tables[1..])
  }

  function PlanMigrations(c: Catalogue, ms: seq<Migration>, includeAnchor: bool): seq<Planned> {
    if ms == [] then []
    else [Planned(ms[0].name, ms[0].needsAnchor, ms[0].needsAnchor && !includeAnchor, Entries(c, ms[0].tables))]
         + PlanMigrations(c, ms[1..], includeAnchor)
  }

  function ToDrop(entries: seq<Entry>): seq<string> {
    if entries == [] then []
    else (if entries[0].action == Drop then [entries[0].table] else []) + ToDrop(entries[1..])
  }

  function WouldDrop(ps: seq<Planned>): seq<string> {
    if ps == [] then [] else (if ps[0].blocked then [] else ToDrop(ps[0].tables)) + WouldDrop(ps[1..])
  }

  function WithRows(entries: seq<Entry>): seq<(string, nat)> {
    if entries == [] then []
    else (if entries[0].action == RefuseHasRows && entries[0].rows.Some?
          then [(entries[0].table, entries[0].rows.value)] else []) + WithRows(entries[1..])
  }

  function Refused(ps: seq<Planned>): seq<(string, nat)> {
    if ps == [] then [] else WithRows(ps[0].tables) + Refused(ps[1..])
  }

  function MakePlan(c: Catalogue, ms: seq<Migration>, includeAnchor: bool): Plan {
    var ps := PlanMigrations(c, ms, includeAnchor);
    Plan(ps, WouldDrop(ps), Refused(ps))
  }

  // ---------------------------------------------------------------- other writers

  /** New row contents for some tables; writers here do not create or drop tables. */
  type Edit = map<string, seq<string>>

  type Rows = map<string, seq<string>>

  function Edited(c: Catalogue, e: Edit): Catalogue {
    map t | t in c :: if t in e then c[t].(rows := e[t]) else c[t]
  }

  /** What the first `n` edits alone would make of the catalogue. */
  function WritersOnly(c: Catalogue, edits: nat -> Edit, n: nat): Catalogue {
    if n == 0 then c else Edited(WritersOnly(c, edits, n - 1), edits(n - 1))
  }

  // ---------------------------------------------------------------- the commands

  /** The schema that the manifest remembers for a table: its last entry wins. */
  function RememberedIn(entries: seq<Entry>, table: string): Option<Entry> {
    if entries == [] then None
    else
      var later := RememberedIn(entries[1..], table);
      if later.Some? then later else if entries[0].table == table then Some(entries[0]) else None
  }

  function Remembered(ps: seq<Planned>, table: string): Option<Entry> {
    if ps == [] then None
    else
      var later := Remembered(ps[1..], table);
      if later.Some? then later else RememberedIn(ps[0].tables, table)
  }

  function RememberedSchema(plan: Plan, table: string): Option<Sql> {
    var e := Remembered(plan.migrations, table);
    if e.Some? then e.value.schema else None
  }

  datatype Reason = SchemaNotInManifest | AlreadyPresent

  class Database {
    var tables: Catalogue

    constructor (tables: Catalogue)
      ensures this.tables == tables
    {
      this.tables := tables;
    }

    /**
     In turn `i`, other writers do `edits(2 * i)` before the recheck and `edits(2 * i + 1)`
     between the recheck and the drop.  `lost` are the rows that the drops destroy.
     */
    method Apply(ms: seq<Migration>, includeAnchor: bool, edits: nat -> Edit)
      returns (m: Manifest, ghost lost: Rows)
      modifies this
      ensures Applied(old(tables), ms, includeAnchor, edits, m, tables)
      ensures m.applied == (m.plan.wouldDrop != [])
      ensures forall i, j :: 0 <= i < j < |m.dropped| ==> m.dropped[i] != m.dropped[j]
      ensures lost.Keys == Elements(m.dropped)
      ensures forall t :: t in lost ==> LateRows(old(tables), m.plan.wouldDrop, edits, t, lost[t])
    {
      var plan := MakePlan(tables, ms, includeAnchor);
      if plan.wouldDrop == [] {
        assert Elements([]) == {};
        return Manifest(plan, false, []), map[];
      }
      var dropped;
      dropped, lost := DropEmpty(plan.wouldDrop, edits);
      assert plan.wouldDrop[..|plan.wouldDrop|] == plan.wouldDrop;
      m := Manifest(plan, true, dropped);
    }

    /** The loop of `apply`: recheck each planned table and drop it if it was empty. */
    method DropEmpty(todo: seq<string>, edits: nat -> Edit) returns (dropped: seq<string>, ghost lost: Rows)
      modifies this
      ensures Progress(old(tables), todo, edits, |todo|, tables, dropped)
      ensures lost.Keys == Elements(dropped)
      ensures forall t :: t in lost ==> LateRows(old(tables), todo, edits, t, lost[t])
    {
      dropped, lost := [], map[];
      ghost var start := tables;
      for i := 0 to |todo|
        invariant Progress(start, todo, edits, i, tables, dropped)
        invariant lost.Keys == Elements(dropped)
        invariant forall t :: t in lost ==> LateRows(start, todo, edits, t, lost[t])
      {
        var table := todo[i];
        OneTurn(start, todo, edits, i, tables, dropped);
        tables := Edited(tables, edits(2 * i));
        var rows := RowCount(tables, table);
        tables := Edited(tables, edits(2 * i + 1));
        if rows == Some(0) {
          lost := lost[table := tables[table].rows];
          tables := tables - {table};
          dropped := dropped + [table];
        }
      }
    }

    method Rollback(m: Manifest) returns (restored: seq<string>, skipped: seq<(string, Reason)>)
      modifies this
      ensures tables == RolledBack(old(tables), m)
      ensures forall t :: t in restored <==>
                t in m.dropped && t !in old(tables) && RememberedSchema(m.plan, t).Some?
      ensures |restored| + |skipped| == |m.dropped|
      ensures Reported(old(tables), m.plan, m.dropped, tables, skipped)
    {
      restored, skipped := [], [];
      ghost var start := tables;
      for i := 0 to |m.dropped|
        invariant AfterTurns(start, m, i, tables, restored, skipped)
      {
        restored, skipped := UndoOne(start, m, i, restored, skipped);
      }
      assert m.dropped[..|m.dropped|] == m.dropped && m.(dropped := m.dropped) == m;
    }

    /** One turn: the table is restored, or skipped with its reason. */
    method UndoOne(ghost start: Catalogue, m: Manifest, i: nat,
                   restoredBefore: seq<string>, skippedBefore: seq<(string, Reason)>)
      returns (restored: seq<string>, skipped: seq<(string, Reason)>)
      requires i < |m.dropped| && AfterTurns(start, m, i, tables, restoredBefore, skippedBefore)
      modifies this
      ensures AfterTurns(start, m, i + 1, tables, restored, skipped)
    {
      restored, skipped := restoredBefore, skippedBefore;
      var table := m.dropped[i];
      var schema := RememberedSchema(m.plan, table);
      OneUndone(start, m, i, tables, restored);
      assert m.dropped[..i + 1] == m.dropped[..i] + [table];
      if schema.None? {
        OneSkipped(start, m.plan, m.dropped[..i], table, tables, skipped);
        skipped := skipped + [(table, SchemaNotInManifest)];
        return;
      }
      if table in tables {
        OneSkipped(start, m.plan, m.dropped[..i], table, tables, skipped);
        skipped := skipped + [(table, AlreadyPresent)];
        return;
      }
      OneRestored(start, m.plan, m.dropped[..i], table, tables, Table(schema.value, []), skipped);
      tables := tables[table := Table(schema.value, [])];
      restored := restored + [table];
    }
  }

  /** The state of `Rollback` before turn `i`. */
  ghost predicate AfterTurns(start: Catalogue, m: Manifest, i: nat, tables: Catalogue,
                             restored: seq<string>, skipped: seq<(string, Reason)>)
    requires i <= |m.dropped|
  {
    && start.Keys <= tables.Keys && |restored| + |skipped| == i
    && Undone(start, m, i, tables, restored)
    && Reported(start, m.plan, m.dropped[..i], tables, skipped)
  }

  /** The catalogue after a rollback: dropped tables that are still absent come back empty. */
  function RolledBack(c: Catalogue, m: Manifest): Catalogue {
    c + map t | t in m.dropped && t !in c && RememberedSchema(m.plan, t).Some?
          :: Table(RememberedSchema(m.plan, t).value, [])
  }

  /** Which tables of `seen` are reported as skipped, and why. */
  ghost predicate Reported(c: Catalogue, plan: Plan, seen: seq<string>, tables: Catalogue,
                           skipped: seq<(string, Reason)>)
  {
    && (forall t :: (t, SchemaNotInManifest) in skipped <==> t in seen && RememberedSchema(plan, t).None?)
    && (forall t :: (t, AlreadyPresent) in skipped ==> t in seen && t in tables && RememberedSchema(plan, t).Some?)
    && (forall t :: t in seen && t in c && RememberedSchema(plan, t).Some? ==> (t, AlreadyPresent) in skipped)
  }

  lemma OneSkipped(c: Catalogue, plan: Plan, seen: seq<string>, t: string, tables: Catalogue,
                   skipped: seq<(string, Reason)>)
    requires Reported(c, plan, seen, tables, skipped) && (RememberedSchema(plan, t).Some? ==> t in tables)
    ensures var reason := if RememberedSchema(plan, t).None? then SchemaNotInManifest else AlreadyPresent;
            Reported(c, plan, seen + [t], tables, skipped + [(t, reason)])
  {
    assert forall x :: x in seen + [t] <==> x in seen || x == t;
    var reason := if RememberedSchema(plan, t).None? then SchemaNotInManifest else AlreadyPresent;
    assert forall p :: p in skipped + [(t, reason)] <==> p in skipped || p == (t, reason);
  }

  lemma OneRestored(c: Catalogue, plan: Plan, seen: seq<string>, t: string, tables: Catalogue, table: Table,
                    skipped: seq<(string, Reason)>)
    requires Reported(c, plan, seen, tables, skipped) && RememberedSchema(plan, t).Some? && t !in tables
    requires c.Keys <= tables.Keys
    ensures Reported(c, plan, seen + [t], tables[t := table], skipped)
  {
    assert forall x :: x in seen + [t] <==> x in seen || x == t;
  }

  /** Turn `i` of the loop names `t` and finds it present without rows. */
  ghost predicate DroppedAt(c: Catalogue, todo: seq<string>, edits: nat -> Edit, i: int, t: string) {
    0 <= i < |todo| && todo[i] == t && RowCount(WritersOnly(c, edits, 2 * i + 1), t) == Some(0)
  }

  ghost predicate DroppedBy(c: Catalogue, todo: seq<string>, edits: nat -> Edit, t: string) {
    exists i :: DroppedAt(c, todo, edits, i, t)
  }

  /** The turn that drops `t`; later turns for the same table find it gone. */
  ghost predicate FirstDrop(c: Catalogue, todo: seq<string>, edits: nat -> Edit, i: int, t: string) {
    DroppedAt(c, todo, edits, i, t) && forall j :: 0 <= j < i ==> !DroppedAt(c, todo, edits, j, t)
  }

  /** The rows are exactly what writers put into `t` between its recheck and its drop. */
  ghost predicate LateRows(c: Catalogue, todo: seq<string>, edits: nat -> Edit, t: string, rows: seq<string>) {
    exists i :: FirstDrop(c, todo, edits, i, t) && rows == WrittenTo(edits(2 * i + 1), t)
  }

  function WrittenTo(e: Edit, t: string): seq<string> {
    if t in e then e[t] else []
  }

  // ---------------------------------------------------------------- lemmas for the loops

  lemma {:induction false} WritersKeepTables(c: Catalogue, edits: nat -> Edit, n: nat)
    ensures WritersOnly(c, edits, n).Keys == c.Keys
    ensures forall t :: t in c ==> WritersOnly(c, edits, n)[t].schema == c[t].schema
  {
    if n > 0 {
      WritersKeepTables(c, edits, n - 1);
    }
  }

  lemma EditedWithout(c: Catalogue, gone: set<string>, e: Edit)
    ensures Edited(c - gone, e) == Edited(c, e) - gone
  {
  }

  function Elements(names: seq<string>): set<string> {
    set t | t in names
  }

  /** The state of `Apply` before turn `i`. */
  ghost predicate Progress(c: Catalogue, todo: seq<string>, edits: nat -> Edit, i: nat,
                           tables: Catalogue, dropped: seq<string>)
    requires i <= |todo|
  {
    && tables == WritersOnly(c, edits, 2 * i) - Elements(dropped)
    && (forall t :: t in dropped <==> DroppedBy(c, todo[..i], edits, t))
    && (forall a, b :: 0 <= a < b < |dropped| ==> dropped[a] != dropped[b])
  }

  lemma OneTurn(c: Catalogue, todo: seq<string>, edits: nat -> Edit, i: nat, tables: Catalogue, dropped: seq<string>)
    requires i < |todo| && Progress(c, todo, edits, i, tables, dropped)
    ensures var seen := Edited(tables, edits(2 * i));
            var now := Edited(seen, edits(2 * i + 1));
            if RowCount(seen, todo[i]) == Some(0)
            then Progress(c, todo, edits, i + 1, now - {todo[i]}, dropped + [todo[i]])
                 && todo[i] in now && now[todo[i]].rows == WrittenTo(edits(2 * i + 1), todo[i])
                 && FirstDrop(c, todo, edits, i, todo[i])
            else Progress(c, todo, edits, i + 1, now, dropped)
  {
    var t, gone := todo[i], Elements(dropped);
    var seen := Edited(tables, edits(2 * i));
    var now := Edited(seen, edits(2 * i + 1));
    TwoEdits(c, gone, edits, i);
    DropDecision(c, todo, edits, i, dropped);
    if RowCount(seen, t) == Some(0) {
      assert t !in dropped;
      FirstWhenNotDropped(c, todo, edits, i);
      assert Elements(dropped + [t]) == gone + {t};
      assert now - {t} == WritersOnly(c, edits, 2 * (i + 1)) - Elements(dropped + [t]);
    }
  }

  lemma FirstWhenNotDropped(c: Catalogue, todo: seq<string>, edits: nat -> Edit, i: nat)
    requires i < |todo| && !DroppedBy(c, todo[..i], edits, todo[i]) && DroppedAt(c, todo, edits, i, todo[i])
    ensures FirstDrop(c, todo, edits, i, todo[i])
  {
    forall j | 0 <= j < i ensures !DroppedAt(c, todo, edits, j, todo[i]) {
      assert !DroppedAt(c, todo[..i], edits, j, todo[i]);
    }
  }

  /** The dropped tables stay out of what writers do in one turn. */
  lemma TwoEdits(c: Catalogue, gone: set<string>, edits: nat -> Edit, i: nat)
    ensures var seen := Edited(WritersOnly(c, edits, 2 * i) - gone, edits(2 * i));
            && seen == WritersOnly(c, edits, 2 * i + 1) - gone
            && Edited(seen, edits(2 * i + 1)) == WritersOnly(c, edits, 2 * (i + 1)) - gone
  {
    var n := 2 * i;
    EditedWithout(WritersOnly(c, edits, n), gone, edits(n));
    EditedWithout(WritersOnly(c, edits, n + 1), gone, edits(n + 1));
    assert 2 * (i + 1) == n + 2;
  }

  lemma DropDecision(c: Catalogue, todo: seq<string>, edits: nat -> Edit, i: nat, dropped: seq<string>)
    requires i < |todo|
    requires forall t :: t in dropped <==> DroppedBy(c, todo[..i], edits, t)
    ensures forall t :: DroppedBy(c, todo[..i + 1], edits, t) <==> t in dropped || DroppedAt(c, todo, edits, i, t)
  {
    assert todo[..i + 1] == todo[..i] + [todo[i]];
    forall t ensures DroppedBy(c, todo[..i + 1], edits, t) <==> t in dropped || DroppedAt(c, todo, edits, i, t) {
      DroppedByOneMore(c, todo[..i], todo[i], edits, t);
      assert DroppedAt(c, todo[..i + 1], edits, i, t) <==> DroppedAt(c, todo, edits, i, t);
    }
  }

  lemma DroppedByOneMore(c: Catalogue, todo: seq<string>, last: string, edits: nat -> Edit, t: string)
    ensures DroppedBy(c, todo + [last], edits, t) <==>
            DroppedBy(c, todo, edits, t) || DroppedAt(c, todo + [last], edits, |todo|, t)
  {
    var all := todo + [last];
    assert forall k :: 0 <= k < |todo| ==> all[k] == todo[k];
    assert forall k :: DroppedAt(c, all, edits, k, t) <==>
                         DroppedAt(c, todo, edits, k, t) || (k == |todo| && DroppedAt(c, all, edits, k, t));
  }

  /** What the first `i` turns of `Rollback` have restored. */
  ghost predicate Undone(c: Catalogue, m: Manifest, i: nat, tables: Catalogue, restored: seq<string>)
    requires i <= |m.dropped|
  {
    && tables == RolledBack(c, m.(dropped := m.dropped[..i]))
    && forall t :: t in restored <==> t in m.dropped[..i] && t !in c && RememberedSchema(m.plan, t).Some?
  }

  lemma OneUndone(c: Catalogue, m: Manifest, i: nat, tables: Catalogue, restored: seq<string>)
    requires i < |m.dropped| && Undone(c, m, i, tables, restored)
    ensures var t := m.dropped[i];
            var schema := RememberedSchema(m.plan, t);
            if schema.Some? && t !in tables
            then Undone(c, m, i + 1, tables[t := Table(schema.value, [])], restored + [t])
            else Undone(c, m, i + 1, tables, restored)
  {
    var t := m.dropped[i];
    var before, after := m.(dropped := m.dropped[..i]), m.(dropped := m.dropped[..i + 1]);
    assert m.dropped[..i + 1] == m.dropped[..i] + [t];
    RolledBackOneMore(c, before, after, t);
    RestoredOneMore(c, m.plan, m.dropped[..i], t, restored);
    assert t in tables <==> t in c || (t in m.dropped[..i] && RememberedSchema(m.plan, t).Some?);
  }

  lemma RestoredOneMore(c: Catalogue, plan: Plan, seen: seq<string>, t: string, restored: seq<string>)
    requires forall x :: x in restored <==> x in seen && x !in c && RememberedSchema(plan, x).Some?
    ensures var all := if t in c || t in restored || RememberedSchema(plan, t).None? then restored else restored + [t];
            forall x :: x in all <==> x in seen + [t] && x !in c && RememberedSchema(plan, x).Some?
  {
  }

  lemma RolledBackOneMore(c: Catalogue, before: Manifest, after: Manifest, t: string)
    requires after.plan == before.plan && forall x :: x in after.dropped <==> x in before.dropped || x == t
    ensures var schema := RememberedSchema(before.plan, t);
            RolledBack(c, after) == if schema.Some? && t !in RolledBack(c, before)
                                    then RolledBack(c, before)[t := Table(schema.value, [])]
                                    else RolledBack(c, before)
  {
  }

  // ---------------------------------------------------------------- the plan

  lemma {:induction false} ToDropMeans(c: Catalogue, tables: seq<string>, t: string)
    ensures t in ToDrop(Entries(c, tables)) <==> t in tables && RowCount(c, t) == Some(0)
  {
    if tables != [] {
      ToDropMeans(c, tables[1..], t);
      assert Entries(c, tables)[1..] == Entries(c, tables[1..]);
    }
  }

  /**
   A table is planned for dropping exactly when a migration that is not blocked names it
   and it exists without rows; blocked migrations contribute nothing.
   */
  lemma {:induction false} PlannedDrops(c: Catalogue, ms: seq<Migration>, includeAnchor: bool, t: string)
    ensures t in MakePlan(c, ms, includeAnchor).wouldDrop <==>
            RowCount(c, t) == Some(0)
            && exists m :: m in ms && t in m.tables && (m.needsAnchor ==> includeAnchor)
  {
    if ms != [] {
      var ps := PlanMigrations(c, ms, includeAnchor);
      assert ps[1..] == PlanMigrations(c, ms[1..], includeAnchor);
      PlannedDrops(c, ms[1..], includeAnchor, t);
      ToDropMeans(c, ms[0].tables, t);
      assert ms == [ms[0]] + ms[1..];
      if m :| m in ms && t in m.tables && (m.needsAnchor ==> includeAnchor) {
        assert m == ms[0] || m in ms[1..];
      }
    }
  }

  lemma {:induction false} WithRowsMeans(c: Catalogue, tables: seq<string>, t: string, n: nat)
    ensures (t, n) in WithRows(Entries(c, tables)) <==> t in tables && t in c && |c[t].rows| == n && n > 0
  {
    if tables != [] {
      WithRowsMeans(c, tables[1..], t, n);
      assert tables == [tables[0]] + tables[1..];
      assert Entries(c, tables)[1..] == Entries(c, tables[1..]);
    }
  }

  /** The plan reports as refused exactly the named tables that hold rows, with their number. */
  lemma {:induction false} RefusedExactly(c: Catalogue, ms: seq<Migration>, includeAnchor: bool, t: string, n: nat)
    ensures (t, n) in MakePlan(c, ms, includeAnchor).refused <==>
              t in c && |c[t].rows| == n && n > 0 && exists m :: m in ms && t in m.tables
  {
    if ms != [] {
      var ps := PlanMigrations(c, ms, includeAnchor);
      assert ps[1..] == PlanMigrations(c, ms[1..], includeAnchor);
      RefusedExactly(c, ms[1..], includeAnchor, t, n);
      WithRowsMeans(c, ms[0].tables, t, n);
      assert ms == [ms[0]] + ms[1..];
      if m :| m in ms && t in m.tables {
        assert m == ms[0] || m in ms[1..];
      }
    }
  }

  lemma {:induction false} EntriesAt(c: Catalogue, tables: seq<string>, j: nat)
    requires j < |tables|
    ensures |Entries(c, tables)| == |tables| && Entries(c, tables)[j] == EntryFor(c, tables[j])
  {
    if j > 0 {
      EntriesAt(c, tables[1..], j - 1);
    } else {
      EntriesLength(c, tables);
    }
  }

  lemma {:induction false} EntriesLength(c: Catalogue, tables: seq<string>)
    ensures |Entries(c, tables)| == |tables|
  {
    if tables != [] {
      EntriesLength(c, tables[1..]);
    }
  }

  lemma {:induction false} PlannedAt(c: Catalogue, ms: seq<Migration>, includeAnchor: bool, k: nat)
    requires k < |ms|
    ensures var ps := PlanMigrations(c, ms, includeAnchor);
            |ps| >= |ms| && ps[k].migration == ms[k].name && ps[k].needsAnchor == ms[k].needsAnchor
            && (ps[k].blocked <==> ms[k].needsAnchor && !includeAnchor) && ps[k].tables == Entries(c, ms[k].tables)
  {
    PlanLength(c, ms, includeAnchor);
    if k > 0 {
      PlannedAt(c, ms[1..], includeAnchor, k - 1);
    }
  }

  lemma {:induction false} PlanLength(c: Catalogue, ms: seq<Migration>, includeAnchor: bool)
    ensures |PlanMigrations(c, ms, includeAnchor)| == |ms|
  {
    if ms != [] {
      PlanLength(c, ms[1..], includeAnchor);
    }
  }

  /** The manifest entry of table `j` of migration `k`: its rows, its schema, and what is to be done. */
  lemma PlanEntryExactly(c: Catalogue, ms: seq<Migration>, includeAnchor: bool, k: nat, j: nat)
    requires k < |ms| && j < |ms[k].tables|
    ensures var ps, t := MakePlan(c, ms, includeAnchor).migrations, ms[k].tables[j];
            && |ps| == |ms| && ps[k].migration == ms[k].name
            && (ps[k].blocked <==> ms[k].needsAnchor && !includeAnchor)
            && |ps[k].tables| == |ms[k].tables| && ps[k].tables[j].table == t
            && (if t !in c then ps[k].tables[j] == Entry(t, None, Absent, None)
                else ps[k].tables[j] == Entry(t, Some(|c[t].rows|), if |c[t].rows| == 0 then Drop else RefuseHasRows,
                                              Some(c[t].schema)))
  {
    PlanLength(c, ms, includeAnchor);
    PlannedAt(c, ms, includeAnchor, k);
    EntriesAt(c, ms[k].tables, j);
  }

  lemma {:induction false} RememberedInEntries(c: Catalogue, tables: seq<string>, t: string)
    ensures RememberedIn(Entries(c, tables), t) == if t in tables then Some(EntryFor(c, t)) else None
  {
    if tables != [] {
      RememberedInEntries(c, tables[1..], t);
      assert Entries(c, tables)[1..] == Entries(c, tables[1..]);
    }
  }

  lemma {:induction false} RememberedInPlan(c: Catalogue, ms: seq<Migration>, includeAnchor: bool, t: string)
    ensures var e := Remembered(PlanMigrations(c, ms, includeAnchor), t);
            && (e.Some? ==> e.value == EntryFor(c, t))
            && (e.None? ==> t !in MakePlan(c, ms, includeAnchor).wouldDrop)
  {
    if ms != [] {
      var ps := PlanMigrations(c, ms, includeAnchor);
      assert ps[1..] == PlanMigrations(c, ms[1..], includeAnchor);
      RememberedInPlan(c, ms[1..], includeAnchor, t);
      RememberedInEntries(c, ms[0].tables, t);
      ToDropMeans(c, ms[0].tables, t);
    }
  }

  // ---------------------------------------------------------------- safety and undoing

  /** What `Apply` guarantees about its manifest and the catalogue it leaves. */
  ghost predicate Applied(before: Catalogue, ms: seq<Migration>, includeAnchor: bool, edits: nat -> Edit,
                          m: Manifest, after: Catalogue)
  {
    && m.plan == MakePlan(before, ms, includeAnchor)
    && after == WritersOnly(before, edits, 2 * |m.plan.wouldDrop|) - Elements(m.dropped)
    && (forall t :: t in m.dropped <==> DroppedBy(before, m.plan.wouldDrop, edits, t))
  }

  /**
   Whatever other writers insert meanwhile: a dropped table was planned by a migration that
   is not blocked and had no rows at its own recheck; every other table is there, with the
   schema it had and the rows the writers gave it.
   */
  lemma ApplyIsSafe(before: Catalogue, ms: seq<Migration>, includeAnchor: bool, edits: nat -> Edit,
                    m: Manifest, after: Catalogue)
    requires Applied(before, ms, includeAnchor, edits, m, after)
    ensures forall t :: t in m.dropped ==>
      && t in before && |before[t].rows| == 0 && t !in after
      && (exists x :: x in ms && t in x.tables && (x.needsAnchor ==> includeAnchor))
      && DroppedBy(before, m.plan.wouldDrop, edits, t)
    ensures after.Keys == before.Keys - Elements(m.dropped)
    ensures forall t :: t in after ==>
      after[t] == WritersOnly(before, edits, 2 * |m.plan.wouldDrop|)[t] && after[t].schema == before[t].schema
  {
    WritersKeepTables(before, edits, 2 * |m.plan.wouldDrop|);
    forall t | t in m.dropped
      ensures t in before && |before[t].rows| == 0
      ensures exists x :: x in ms && t in x.tables && (x.needsAnchor ==> includeAnchor)
    {
      PlannedDrops(before, ms, includeAnchor, t);
      var i :| DroppedAt(before, m.plan.wouldDrop, edits, i, t);
      assert t in m.plan.wouldDrop;
    }
  }

  /** What a drop destroys is determined by the writers. */
  lemma LateRowsAreUnique(c: Catalogue, todo: seq<string>, edits: nat -> Edit, t: string, a: seq<string>, b: seq<string>)
    requires LateRows(c, todo, edits, t, a) && LateRows(c, todo, edits, t, b)
    ensures a == b
  {
    var i :| FirstDrop(c, todo, edits, i, t) && a == WrittenTo(edits(2 * i + 1), t);
    var j :| FirstDrop(c, todo, edits, j, t) && b == WrittenTo(edits(2 * j + 1), t);
    assert i == j;
  }

  /** Nothing is lost exactly when nobody writes to a table between its recheck and its drop. */
  lemma NothingIsLostExactly(before: Catalogue, ms: seq<Migration>, includeAnchor: bool, edits: nat -> Edit,
                             m: Manifest, after: Catalogue, lost: Rows)
    requires Applied(before, ms, includeAnchor, edits, m, after) && lost.Keys == Elements(m.dropped)
    requires forall t :: t in lost ==> LateRows(before, m.plan.wouldDrop, edits, t, lost[t])
    ensures (forall t :: t in lost ==> lost[t] == []) <==>
              forall i :: 0 <= i < |m.plan.wouldDrop|
                          && FirstDrop(before, m.plan.wouldDrop, edits, i, m.plan.wouldDrop[i]) ==>
                            WrittenTo(edits(2 * i + 1), m.plan.wouldDrop[i]) == []
  {
    var todo := m.plan.wouldDrop;
    forall i | 0 <= i < |todo| && FirstDrop(before, todo, edits, i, todo[i])
      ensures todo[i] in lost && lost[todo[i]] == WrittenTo(edits(2 * i + 1), todo[i])
    {
      assert DroppedBy(before, todo, edits, todo[i]);
      assert todo[i] in Elements(m.dropped);
      LateRowsAreUnique(before, todo, edits, todo[i], lost[todo[i]], WrittenTo(edits(2 * i + 1), todo[i]));
    }
    forall t | t in lost
      ensures exists i :: 0 <= i < |todo| && todo[i] == t && FirstDrop(before, todo, edits, i, todo[i])
    {
      var i :| FirstDrop(before, todo, edits, i, t) && lost[t] == WrittenTo(edits(2 * i + 1), t);
      assert todo[i] == t;
    }
  }

  /**
   The input: two migrations name one empty table, and a row arrives after its first recheck.
   The apply destroys it, and its manifest does not know.
   */
  lemma LateRowIsLost(create: Sql) returns (m: Manifest, edits: nat -> Edit)
    ensures var before := map["t" := Table(create, [])];
            var ms := [Migration("a", ["t"], false), Migration("b", ["t"], false)];
            && Applied(before, ms, false, edits, m, map[])
            && m.plan.wouldDrop == ["t", "t"] && m.dropped == ["t"]
            && LateRows(before, m.plan.wouldDrop, edits, "t", ["row"])
  {
    edits := i => if i == 1 then map["t" := ["row"]] else map[];
    var before: Catalogue := map["t" := Table(create, [])];
    var ms := [Migration("a", ["t"], false), Migration("b", ["t"], false)];
    var plan := MakePlan(before, ms, false);
    PlanOfOneTableTwice(before, ms);
    var todo := plan.wouldDrop;
    assert WritersOnly(before, edits, 1) == Edited(before, map[]);
    assert DroppedAt(before, todo, edits, 0, "t");
    assert FirstDrop(before, todo, edits, 0, "t");
    m := Manifest(plan, true, ["t"]);
    WritersKeepTables(before, edits, 2 * |todo|);
    assert WritersOnly(before, edits, 2 * |todo|) - Elements(["t"]) == map[];
    assert DroppedBy(before, todo, edits, "t");
    assert forall t :: DroppedBy(before, todo, edits, t) ==> t == "t";
  }

  lemma PlanOfOneTableTwice(c: Catalogue, ms: seq<Migration>)
    requires "t" in c && c["t"].rows == []
    requires ms == [Migration("a", ["t"], false), Migration("b", ["t"], false)]
    ensures MakePlan(c, ms, false).wouldDrop == ["t", "t"]
  {
    var e := EntryFor(c, "t");
    assert ["t"][1..] == [] && Entries(c, ["t"]) == [e] && ToDrop([e]) == ["t"];
    assert ms[1..] == [ms[1]] && ms[1..][1..] == [];
    assert PlanMigrations(c, ms[1..], false) == [Planned("b", false, false, [e])];
    assert PlanMigrations(c, ms, false) == [Planned("a", false, false, [e]), Planned("b", false, false, [e])];
    assert WouldDrop([Planned("b", false, false, [e])]) == ["t"];
  }

  lemma {:induction false} NoWriters(c: Catalogue, edits: nat -> Edit, n: nat)
    requires forall i :: edits(i) == map[]
    ensures WritersOnly(c, edits, n) == c
  {
    if n > 0 {
      NoWriters(c, edits, n - 1);
      assert Edited(c, map[]) == c;
    }
  }

  lemma DroppedSchemas(before: Catalogue, ms: seq<Migration>, includeAnchor: bool, edits: nat -> Edit,
                       m: Manifest, after: Catalogue)
    requires Applied(before, ms, includeAnchor, edits, m, after)
    ensures forall t :: t in m.dropped ==>
      t in before && |before[t].rows| == 0 && RememberedSchema(m.plan, t) == Some(before[t].schema)
  {
    ApplyIsSafe(before, ms, includeAnchor, edits, m, after);
    forall t | t in m.dropped ensures RememberedSchema(m.plan, t) == Some(before[t].schema) {
      RememberedInPlan(before, ms, includeAnchor, t);
      PlannedDrops(before, ms, includeAnchor, t);
    }
  }

  /** Without interference, rolling back restores the catalogue exactly. */
  lemma RollbackInvertsApply(before: Catalogue, ms: seq<Migration>, includeAnchor: bool, edits: nat -> Edit,
                             m: Manifest, after: Catalogue)
    requires Applied(before, ms, includeAnchor, edits, m, after)
    requires forall i :: edits(i) == map[]
    ensures RolledBack(after, m) == before
  {
    NoWriters(before, edits, 2 * |m.plan.wouldDrop|);
    DroppedSchemas(before, ms, includeAnchor, edits, m, after);
    DroppedComeBack(before, after, m);
  }

  lemma DroppedComeBack(before: Catalogue, after: Catalogue, m: Manifest)
    requires after == before - Elements(m.dropped)
    requires forall t :: t in m.dropped ==>
      t in before && |before[t].rows| == 0 && RememberedSchema(m.plan, t) == Some(before[t].schema)
    ensures RolledBack(after, m) == before
  {
    var back := RolledBack(after, m);
    forall t | t in before ensures t in back && back[t] == before[t] {
      if t in m.dropped {
        assert before[t] == Table(before[t].schema, []);
      }
    }
    assert back.Keys == before.Keys;
  }

  /**
   From any later catalogue, a rollback recreates exactly the dropped tables still absent,
   with the schema they had, touches nothing present, and restores nothing the second time.
   */
  lemma RollbackOnAnyCatalogue(before: Catalogue, ms: seq<Migration>, includeAnchor: bool, edits: nat -> Edit,
                               m: Manifest, after: Catalogue, later: Catalogue)
    requires Applied(before, ms, includeAnchor, edits, m, after)
    ensures var back := RolledBack(later, m);
            && back.Keys == later.Keys + Elements(m.dropped)
            && (forall t :: t in later ==> back[t] == later[t])
            && (forall t :: t in m.dropped && t !in later ==>
                  t in before && back[t] == Table(before[t].schema, []))
            && RolledBack(back, m) == back
  {
    DroppedSchemas(before, ms, includeAnchor, edits, m, after);
    RollbackIsIdempotent(later, m);
  }

  lemma RollbackIsIdempotent(c: Catalogue, m: Manifest)
    ensures RolledBack(RolledBack(c, m), m) == RolledBack(c, m)
  {
    var back := RolledBack(c, m);
    assert forall t :: t in m.dropped && RememberedSchema(m.plan, t).Some? ==> t in back;
    assert RolledBack(back, m) == back + map[];
  }
}
