/**
 scripts/observe_neuron_education.py: samples of the education sessions, the changes between
 two samples, and the log of a whole observation, which can be replayed.
 */
module EducationDiff {
  import opened Options

  /** A column value, equal to another as Python's `!=` sees it. */
  datatype Value = Null | Text(text: string) | Number(number: real)

  type Row = map<string, Value>

  datatype Sample = Sample(sessions: map<string, Row>, events: nat)

  datatype Field = Field(before: Value, now: Value)

  datatype Change =
    | NewSession(row: Row)
    | SessionAdvances(sessionId: string, neuronId: Value, fields: map<string, Field>)
    | EventCount(before: nat, now: nat)

  /** The columns selected from the sessions table. */
  const FIELDS: set<string> := {
    "session_id", "neuron_id", "state", "result", "baseline_score", "post_score", "applied_run_count",
    "regression_count", "rollback_ref", "created_at", "finished_at"
  }

  const APPLICATIONS: string := "applications_rows"

  /** A row carries its own key, and the column that a change is reported under. */
  predicate KeyedRow(sid: string, row: Row) {
    "session_id" in row && row["session_id"] == Text(sid) && "neuron_id" in row
  }

  predicate Keyed(sessions: map<string, Row>) {
    forall sid :: sid in sessions ==> KeyedRow(sid, sessions[sid])
  }

  /** All rows have the same columns. */
  predicate Uniform(sessions: map<string, Row>, columns: set<string>) {
    forall sid :: sid in sessions ==> sessions[sid].Keys == columns
  }

  // ---------------------------------------------------------------- taking a sample

  /** A row of the sessions table as selected; `session_id` is its text primary key. */
  predicate TableRow(row: Row) {
    row.Keys == FIELDS && row["session_id"].Text?
  }

  /** The row sampled under `sid`: the selected columns, and how many applications it has. */
  predicate IsSampleOf(row: Row, applications: map<string, nat>, sid: string, sampled: Row) {
    && Get(row, "session_id") == Text(sid)
    && (forall k :: k in row ==> k in sampled && (k != APPLICATIONS ==> sampled[k] == row[k]))
    && APPLICATIONS in sampled
    && sampled[APPLICATIONS] == Number(if sid in applications then applications[sid] as real else 0.0)
  }

  function SampleRow(row: Row, applications: map<string, nat>): (r: Row)
    requires TableRow(row)
    ensures r.Keys == FIELDS + {APPLICATIONS} && KeyedRow(row["session_id"].text, r)
    ensures IsSampleOf(row, applications, row["session_id"].text, r)
  {
    var sid := row["session_id"].text;
    var count := if sid in applications then applications[sid] else 0;
    row[APPLICATIONS := Number(count as real)]
  }

  predicate AllTableRows(table: seq<Row>) {
    forall i :: 0 <= i < |table| ==> TableRow(table[i])
  }

  function Sessions(table: seq<Row>, applications: map<string, nat>): (sessions: map<string, Row>)
    requires AllTableRows(table)
    ensures Keyed(sessions) && Uniform(sessions, FIELDS + {APPLICATIONS})
  {
    if table == [] then map[]
    else
      var init, row := table[..|table| - 1], table[|table| - 1];
      assert TableRow(row);
      Sessions(init, applications)[row["session_id"].text := SampleRow(row, applications)]
  }

  /** `_muestra`: every sample has well keyed rows of one column set. */
  function TakeSample(table: seq<Row>, applications: map<string, nat>, events: nat): (s: Sample)
    requires AllTableRows(table)
    ensures Keyed(s.sessions) && Uniform(s.sessions, FIELDS + {APPLICATIONS}) && s.events == events
  {
    Sample(Sessions(table, applications), events)
  }

  predicate Holds(table: seq<Row>, sid: string) {
    exists row :: row in table && Get(row, "session_id") == Text(sid)
  }

  ghost predicate IsSampled(table: seq<Row>, applications: map<string, nat>, sid: string, sampled: Row) {
    exists row :: row in table && IsSampleOf(row, applications, sid, sampled)
  }

  /** A sample has exactly the sessions of the table, with their columns and application counts. */
  lemma {:induction false} SampleIsOfTable(table: seq<Row>, applications: map<string, nat>)
    requires AllTableRows(table)
    ensures var sessions := Sessions(table, applications);
            && (forall sid :: sid in sessions <==> Holds(table, sid))
            && (forall sid :: sid in sessions ==> IsSampled(table, applications, sid, sessions[sid]))
  {
    if table != [] {
      var init, row := table[..|table| - 1], table[|table| - 1];
      assert TableRow(row);
      SampleIsOfTable(init, applications);
      assert table == init + [row];
      OneRowMore(init, row, applications, Sessions(init, applications), row["session_id"].text,
                 SampleRow(row, applications));
    }
  }

  /** `_muestra`, as a reader of the sample sees it. */
  lemma SampleOfTable(table: seq<Row>, applications: map<string, nat>, events: nat)
    requires AllTableRows(table)
    ensures var s := TakeSample(table, applications, events);
            && s.events == events && Keyed(s.sessions) && Uniform(s.sessions, FIELDS + {APPLICATIONS})
            && (forall sid :: sid in s.sessions <==> Holds(table, sid))
            && (forall sid :: sid in s.sessions ==> IsSampled(table, applications, sid, s.sessions[sid]))
  {
    SampleIsOfTable(table, applications);
  }

  lemma OneRowMore(init: seq<Row>, row: Row, applications: map<string, nat>, sessions: map<string, Row>,
                   id: string, sampled: Row)
    requires Get(row, "session_id") == Text(id) && IsSampleOf(row, applications, id, sampled)
    requires forall sid :: sid in sessions <==> Holds(init, sid)
    requires forall sid :: sid in sessions ==> IsSampled(init, applications, sid, sessions[sid])
    ensures var next := sessions[id := sampled];
            && (forall sid :: sid in next <==> Holds(init + [row], sid))
            && (forall sid :: sid in next ==> IsSampled(init + [row], applications, sid, next[sid]))
  {
    var table, next := init + [row], sessions[id := sampled];
    assert forall x :: x in table <==> x in init || x == row;
    forall sid | sid in next ensures IsSampled(table, applications, sid, next[sid]) {
      if sid == id {
        assert row in table;
      } else {
        var x :| x in init && IsSampleOf(x, applications, sid, sessions[sid]);
        assert x in table;
      }
    }
    forall sid ensures Holds(table, sid) <==> Holds(init, sid) || sid == id {
      if Holds(init, sid) {
        var x :| x in init && Get(x, "session_id") == Text(sid);
        assert x in table;
      }
      assert row in table;
    }
  }

  // ---------------------------------------------------------------- the difference of two samples

  /** `dict.get`. */
  function Get(row: Row, k: string): Value {
    if k in row then row[k] else Null
  }

  function Fields(previous: Row, row: Row): map<string, Field> {
    map k | k in row && Get(previous, k) != row[k] :: Field(Get(previous, k), row[k])
  }

  function SessionChange(before: map<string, Row>, sid: string, row: Row): seq<Change>
    requires "neuron_id" in row
  {
    if sid !in before then [NewSession(row)]
    else
      var fields := Fields(before[sid], row);
      if fields == map[] then [] else [SessionAdvances(sid, row["neuron_id"], fields)]
  }

  function SessionChanges(before: map<string, Row>, now: map<string, Row>, order: seq<string>): seq<Change>
    requires Keyed(now) && forall sid :: sid in order ==> sid in now
  {
    if order == [] then []
    else
      var sid := order[|order| - 1];
      assert KeyedRow(sid, now[sid]);
      SessionChanges(before, now, order[..|order| - 1]) + SessionChange(before, sid, now[sid])
  }

  function EventChange(before: nat, now: nat): seq<Change> {
    if now != before then [EventCount(before, now)] else []
  }

  /** The keys of a dictionary in the order in which it yields them. */
  predicate Lists(order: seq<string>, sessions: map<string, Row>) {
    && (forall sid :: sid in order ==> sid in sessions)
    && (forall sid :: sid in sessions ==> sid in order)
    && (forall i, j :: 0 <= i < j < |order| ==> order[i] != order[j])
  }

  function Diff(before: Sample, now: Sample, order: seq<string>): seq<Change>
    requires Keyed(now.sessions) && Lists(order, now.sessions)
  {
    SessionChanges(before.sessions, now.sessions, order) + EventChange(before.events, now.events)
  }

  /** `_diferencias`. */
  method Differences(before: Sample, now: Sample, order: seq<string>) returns (changes: seq<Change>)
    requires Keyed(now.sessions) && Lists(order, now.sessions)
    ensures changes == Diff(before, now, order)
  {
    changes := [];
    for i := 0 to |order|
      invariant changes == SessionChanges(before.sessions, now.sessions, order[..i])
    {
      var sid := order[i];
      var row := now.sessions[sid];
      assert order[..i + 1][..i] == order[..i];
      if sid !in before.sessions {
        changes := changes + [NewSession(row)];
        continue;
      }
      var fields := Fields(before.sessions[sid], row);
      if fields != map[] {
        changes := changes + [SessionAdvances(sid, row["neuron_id"], fields)];
      }
    }
    assert order[..|order|] == order;
    if now.events != before.events {
      changes := changes + [EventCount(before.events, now.events)];
    }
  }

  // ---------------------------------------------------------------- replaying changes

  function Patch(row: Row, fields: map<string, Field>): Row {
    map k | k in row.Keys + fields.Keys :: if k in fields then fields[k].now else row[k]
  }

  function KeyOf(row: Row): string {
    match Get(row, "session_id")
    case Text(sid) => sid
    case _ => ""
  }

  /** What a reader of the log can reconstruct from one entry. */
  function ReplayChange(s: Sample, c: Change): Sample {
    match c
    case NewSession(row) => s.(sessions := s.sessions[KeyOf(row) := row])
    case SessionAdvances(sid, _, fields) =>
      if sid in s.sessions then s.(sessions := s.sessions[sid := Patch(s.sessions[sid], fields)]) else s
    case EventCount(_, now) => s.(events := now)
  }

  function Replay(s: Sample, changes: seq<Change>): Sample {
    if changes == [] then s else ReplayChange(Replay(s, changes[..|changes| - 1]), changes[|changes| - 1])
  }

  lemma {:induction false} ReplayAppend(s: Sample, a: seq<Change>, b: seq<Change>)
    ensures Replay(s, a + b) == Replay(Replay(s, a), b)
    decreases |b|
  {
    if b == [] {
      assert a + b == a;
    } else {
      var init := b[..|b| - 1];
      assert (a + b)[..|a + b| - 1] == a + init;
      ReplayAppend(s, a, init);
    }
  }

  /** The row a reader ends up with, for a session of the later sample. */
  function Caught(before: map<string, Row>, now: map<string, Row>, sid: string): Row
    requires sid in now
  {
    if sid in before then Patch(before[sid], Fields(before[sid], now[sid])) else now[sid]
  }

  /** No column is lost, and no column appears holding NULL. */
  predicate Extends(previous: Row, row: Row) {
    && (forall k :: k in previous ==> k in row)
    && (forall k :: k in row && k !in previous ==> row[k] != Null)
  }

  lemma PatchCatchesUpExactly(previous: Row, row: Row)
    ensures Patch(previous, Fields(previous, row)) == row <==> Extends(previous, row)
  {
    var fields := Fields(previous, row);
    var patched := Patch(previous, fields);
    assert forall k :: k in patched <==> k in previous || k in fields;
    assert forall k :: k in row && k in patched ==> patched[k] == row[k];
    if Extends(previous, row) {
      assert forall k :: k in patched <==> k in row;
      assert patched == row;
    }
    if patched == row {
      forall k | k in row && k !in previous ensures row[k] != Null {
        assert k in patched;
      }
    }
  }

  /** The reader knows every session of the sample that the next one is compared with. */
  predicate Knows(reader: map<string, Row>, before: map<string, Row>) {
    forall sid :: sid in before ==> sid in reader && reader[sid] == before[sid]
  }

  lemma {:induction false} SessionReplay(reader: Sample, before: map<string, Row>, now: map<string, Row>, sid: string)
    requires sid in now && KeyedRow(sid, now[sid])
    requires sid in before ==> sid in reader.sessions && reader.sessions[sid] == before[sid]
    ensures Replay(reader, SessionChange(before, sid, now[sid]))
            == reader.(sessions := reader.sessions[sid := Caught(before, now, sid)])
  {
    var changes := SessionChange(before, sid, now[sid]);
    if changes == [] {
      var row := before[sid];
      assert Patch(row, map[]) == row;
      assert reader.sessions[sid := row] == reader.sessions;
    } else {
      assert changes[..0] == [];
      assert Replay(reader, changes) == ReplayChange(reader, changes[0]);
    }
  }

  /** After the changes of the listed sessions, these have caught up and all others are untouched. */
  predicate CaughtUp(reader: Sample, before: map<string, Row>, now: map<string, Row>, order: seq<string>, after: Sample)
    requires forall sid :: sid in order ==> sid in now
  {
    && after.events == reader.events
    && (forall sid :: sid in after.sessions ==> sid in reader.sessions || sid in order)
    && (forall sid :: sid in order ==> sid in after.sessions && after.sessions[sid] == Caught(before, now, sid))
    && (forall sid :: sid in reader.sessions ==>
          sid in after.sessions && (sid !in order ==> after.sessions[sid] == reader.sessions[sid]))
  }

  lemma CaughtUpStep(reader: Sample, before: map<string, Row>, now: map<string, Row>, init: seq<string>, sid: string,
                     after: Sample)
    requires (forall x :: x in init ==> x in now) && sid in now && sid !in init
    requires CaughtUp(reader, before, now, init, after)
    ensures CaughtUp(reader, before, now, init + [sid],
                     after.(sessions := after.sessions[sid := Caught(before, now, sid)]))
  {
    assert forall x :: x in init + [sid] <==> x in init || x == sid;
  }

  lemma {:induction false} SessionsReplay(reader: Sample, before: map<string, Row>, now: map<string, Row>,
                                          order: seq<string>)
    requires Keyed(now) && Knows(reader.sessions, before)
    requires forall sid :: sid in order ==> sid in now
    requires forall i, j :: 0 <= i < j < |order| ==> order[i] != order[j]
    ensures CaughtUp(reader, before, now, order, Replay(reader, SessionChanges(before, now, order)))
    decreases |order|
  {
    if order != [] {
      var init, sid := order[..|order| - 1], order[|order| - 1];
      SessionsReplay(reader, before, now, init);
      var middle := Replay(reader, SessionChanges(before, now, init));
      assert sid !in init && order == init + [sid];
      ReplayAppend(reader, SessionChanges(before, now, init), SessionChange(before, sid, now[sid]));
      assert KeyedRow(sid, now[sid]);
      assert sid in before ==> sid in reader.sessions && middle.sessions[sid] == before[sid];
      SessionReplay(middle, before, now, sid);
      CaughtUpStep(reader, before, now, init, sid, middle);
    }
  }

  lemma DiffReplay(reader: Sample, before: Sample, now: Sample, order: seq<string>)
    requires Keyed(now.sessions) && Lists(order, now.sessions)
    requires Knows(reader.sessions, before.sessions) && reader.events == before.events
    ensures var after := Replay(reader, Diff(before, now, order));
            && after.events == now.events
            && (forall sid :: sid in after.sessions <==> sid in reader.sessions || sid in now.sessions)
            && (forall sid :: sid in now.sessions ==>
                  after.sessions[sid] == Caught(before.sessions, now.sessions, sid))
            && (forall sid :: sid in reader.sessions && sid !in now.sessions ==>
                  after.sessions[sid] == reader.sessions[sid])
  {
    SessionsReplay(reader, before.sessions, now.sessions, order);
    var sessionChanges, eventChange :=
      SessionChanges(before.sessions, now.sessions, order), EventChange(before.events, now.events);
    ReplayAppend(reader, sessionChanges, eventChange);
    var middle := Replay(reader, sessionChanges);
    if eventChange != [] {
      assert eventChange[..0] == [];
      assert Replay(middle, eventChange) == ReplayChange(middle, eventChange[0]);
    }
  }

  /** Replaying a difference over the earlier sample gives the later one exactly under this condition. */
  lemma DiffReplaysExactly(before: Sample, now: Sample, order: seq<string>)
    requires Keyed(now.sessions) && Lists(order, now.sessions)
    ensures Replay(before, Diff(before, now, order)) == now
            <==> forall sid :: sid in before.sessions ==>
                   sid in now.sessions && Extends(before.sessions[sid], now.sessions[sid])
  {
    DiffReplay(before, before, now, order);
    CatchingUpExactly(before, now, Replay(before, Diff(before, now, order)));
  }

  lemma CatchingUpExactly(before: Sample, now: Sample, after: Sample)
    requires after.events == now.events
    requires forall sid :: sid in after.sessions <==> sid in before.sessions || sid in now.sessions
    requires forall sid :: sid in now.sessions ==>
               after.sessions[sid] == Caught(before.sessions, now.sessions, sid)
    ensures after == now
            <==> forall sid :: sid in before.sessions ==>
                   sid in now.sessions && Extends(before.sessions[sid], now.sessions[sid])
  {
    forall sid | sid in now.sessions && sid in before.sessions
      ensures after.sessions[sid] == now.sessions[sid]
              <==> Extends(before.sessions[sid], now.sessions[sid])
    {
      PatchCatchesUpExactly(before.sessions[sid], now.sessions[sid]);
    }
    if forall sid :: sid in before.sessions ==>
         sid in now.sessions && Extends(before.sessions[sid], now.sessions[sid]) {
      assert after.sessions.Keys == now.sessions.Keys;
      assert after.sessions == now.sessions;
    }
    if after == now {
      assert forall sid :: sid in before.sessions ==> sid in after.sessions;
    }
  }

  // ---------------------------------------------------------------- what a difference lists

  ghost predicate ListsField(changes: seq<Change>, sid: string, k: string, f: Field) {
    exists i :: 0 <= i < |changes| && Advances(changes[i], sid, k, f)
  }

  predicate Advances(c: Change, sid: string, k: string, f: Field) {
    c.SessionAdvances? && c.sessionId == sid && k in c.fields && c.fields[k] == f
  }

  /** A column of a session known before is listed, with its two values, exactly when it changed. */
  lemma ListedExactlyWhenChanged(before: Sample, now: Sample, order: seq<string>, sid: string, k: string, f: Field)
    requires Keyed(now.sessions) && Lists(order, now.sessions)
    ensures ListsField(Diff(before, now, order), sid, k, f)
            <==> && sid in before.sessions && sid in now.sessions && k in now.sessions[sid]
                 && f == Field(Get(before.sessions[sid], k), now.sessions[sid][k]) && f.before != f.now
  {
    ListedAmong(before.sessions, now.sessions, order, sid, k, f);
    var changes, tail :=
      SessionChanges(before.sessions, now.sessions, order), EventChange(before.events, now.events);
    if ListsField(changes, sid, k, f) {
      var i :| 0 <= i < |changes| && Advances(changes[i], sid, k, f);
      assert (changes + tail)[i] == changes[i];
    }
    if ListsField(changes + tail, sid, k, f) {
      var i :| 0 <= i < |changes + tail| && Advances((changes + tail)[i], sid, k, f);
      assert i < |changes|;
      assert changes[i] == (changes + tail)[i];
    }
  }

  lemma {:induction false} ListedAmong(before: map<string, Row>, now: map<string, Row>, order: seq<string>,
                                       sid: string, k: string, f: Field)
    requires Keyed(now) && forall s :: s in order ==> s in now
    ensures ListsField(SessionChanges(before, now, order), sid, k, f)
            <==> && sid in before && sid in order && k in now[sid]
                 && f == Field(Get(before[sid], k), now[sid][k]) && f.before != f.now
    decreases |order|
  {
    if order != [] {
      var init, last := order[..|order| - 1], order[|order| - 1];
      ListedAmong(before, now, init, sid, k, f);
      var a, b := SessionChanges(before, now, init), SessionChange(before, last, now[last]);
      ListsFieldAppend(a, b, sid, k, f);
      ListedInOne(before, now, last, sid, k, f);
      assert forall x :: x in order <==> x in init || x == last;
    }
  }

  lemma ListedInOne(before: map<string, Row>, now: map<string, Row>, last: string, sid: string, k: string, f: Field)
    requires last in now && KeyedRow(last, now[last])
    ensures ListsField(SessionChange(before, last, now[last]), sid, k, f)
            <==> && sid == last && sid in before && k in now[sid]
                 && f == Field(Get(before[sid], k), now[sid][k]) && f.before != f.now
  {
    var changes := SessionChange(before, last, now[last]);
    if last in before {
      var fields := Fields(before[last], now[last]);
      assert k in fields ==> fields != map[];
      if sid == last && k in fields && fields[k] == f {
        assert Advances(changes[0], sid, k, f);
      }
    }
  }

  lemma ListsFieldAppend(a: seq<Change>, b: seq<Change>, sid: string, k: string, f: Field)
    ensures ListsField(a + b, sid, k, f) <==> ListsField(a, sid, k, f) || ListsField(b, sid, k, f)
  {
    if ListsField(a + b, sid, k, f) {
      var i :| 0 <= i < |a + b| && Advances((a + b)[i], sid, k, f);
      assert if i < |a| then Advances(a[i], sid, k, f) else Advances(b[i - |a|], sid, k, f);
    }
    if ListsField(a, sid, k, f) {
      var i :| 0 <= i < |a| && Advances(a[i], sid, k, f);
      assert Advances((a + b)[i], sid, k, f);
    }
    if ListsField(b, sid, k, f) {
      var i :| 0 <= i < |b| && Advances(b[i], sid, k, f);
      assert Advances((a + b)[i + |a|], sid, k, f);
    }
  }

  lemma {:induction false} ListedBySession(before: map<string, Row>, now: map<string, Row>, order: seq<string>, c: Change)
    requires Keyed(now) && forall s :: s in order ==> s in now
    ensures c in SessionChanges(before, now, order) <==> IsChangeOfOne(before, now, order, c)
    decreases |order|
  {
    if order != [] {
      var init, last := order[..|order| - 1], order[|order| - 1];
      assert KeyedRow(last, now[last]);
      ListedBySession(before, now, init, c);
      assert forall s :: s in order <==> s in init || s == last;
    }
  }

  /** The change is that of some session listed. */
  ghost predicate IsChangeOfOne(before: map<string, Row>, now: map<string, Row>, order: seq<string>, c: Change)
    requires forall s :: s in order ==> s in now
  {
    exists s :: s in order && "neuron_id" in now[s] && c in SessionChange(before, s, now[s])
  }

  /**
   What is listed: the rows of the sessions that are new, the event counts if they differ, and
   for sessions known before at least one field under the neuron of the session.
   */
  lemma ListedExactly(before: Sample, now: Sample, order: seq<string>, c: Change)
    requires Keyed(now.sessions) && Lists(order, now.sessions)
    ensures var d := Diff(before, now, order);
            match c
            case NewSession(row) =>
              c in d <==> exists s :: s in now.sessions && s !in before.sessions && row == now.sessions[s]
            case EventCount(x, y) => c in d <==> x == before.events && y == now.events && x != y
            case SessionAdvances(sid, neuron, fields) =>
              c in d ==>
                && sid in before.sessions && sid in now.sessions && fields != map[]
                && "neuron_id" in now.sessions[sid] && neuron == now.sessions[sid]["neuron_id"]
  {
    ListedBySession(before.sessions, now.sessions, order, c);
    if c.NewSession? {
      if s :| s in now.sessions && s !in before.sessions && c.row == now.sessions[s] {
        assert KeyedRow(s, now.sessions[s]);
        assert SessionChange(before.sessions, s, now.sessions[s]) == [c];
        assert IsChangeOfOne(before.sessions, now.sessions, order, c);
      }
    }
  }

  // ---------------------------------------------------------------- the observation

  /** One turn of the loop: a sample and the order of its sessions, or a failed read. */
  datatype Reading = Taken(sample: Sample, order: seq<string>) | Failed(detail: string)

  datatype Entry = Start(sessions: nat, events: nat) | ReadError(detail: string) | Changed(change: Change) | End

  /** The last successful sample of the first `n` turns. */
  function LastGood(first: Sample, readings: seq<Reading>, n: nat): Sample
    requires n <= |readings|
  {
    if n == 0 then first else Next(LastGood(first, readings, n - 1), readings[n - 1])
  }

  function Next(state: Sample, r: Reading): Sample {
    if r.Taken? then r.sample else state
  }

  /** Every session that some successful sample of the first `n` turns held. */
  function Seen(first: Sample, readings: seq<Reading>, n: nat): set<string>
    requires n <= |readings|
  {
    if n == 0 then first.sessions.Keys else Seen(first, readings, n - 1) + SessionsOf(readings[n - 1])
  }

  function SessionsOf(r: Reading): set<string> {
    if r.Taken? then r.sample.sessions.Keys else {}
  }

  /** What a reader of the log recovers. */
  function ReplayLog(first: Sample, log: seq<Entry>): Sample {
    if log == [] then first
    else
      var s := ReplayLog(first, log[..|log| - 1]);
      match log[|log| - 1]
      case Changed(c) => ReplayChange(s, c)
      case _ => s
  }

  function Entries(changes: seq<Change>): (entries: seq<Entry>)
    ensures |entries| == |changes| && forall i :: 0 <= i < |entries| ==> entries[i] == Changed(changes[i])
  {
    if changes == [] then [] else Entries(changes[..|changes| - 1]) + [Changed(changes[|changes| - 1])]
  }

  lemma {:induction false} ReplayEntries(first: Sample, log: seq<Entry>, changes: seq<Change>)
    ensures ReplayLog(first, log + Entries(changes)) == Replay(ReplayLog(first, log), changes)
    decreases |changes|
  {
    if changes == [] {
      assert log + Entries(changes) == log;
    } else {
      var init := changes[..|changes| - 1];
      var all := log + Entries(changes);
      assert all[..|all| - 1] == log + Entries(init);
      ReplayEntries(first, log, init);
    }
  }

  lemma ReplayQuiet(first: Sample, log: seq<Entry>, e: Entry)
    requires !e.Changed?
    ensures ReplayLog(first, log + [e]) == ReplayLog(first, log)
  {
    assert (log + [e])[..|log|] == log;
  }

  /** The reader agrees with the sample on all its sessions, and otherwise holds only vanished ones. */
  predicate Follows(reader: Sample, state: Sample, seen: set<string>) {
    && reader.events == state.events
    && Knows(reader.sessions, state.sessions)
    && reader.sessions.Keys == seen
    && state.sessions.Keys <= seen
  }

  lemma FollowsNext(reader: Sample, state: Sample, seen: set<string>, now: Sample, order: seq<string>,
                    columns: set<string>)
    requires Follows(reader, state, seen) && Uniform(state.sessions, columns)
    requires Keyed(now.sessions) && Uniform(now.sessions, columns) && Lists(order, now.sessions)
    ensures Follows(Replay(reader, Diff(state, now, order)), now, seen + now.sessions.Keys)
  {
    DiffReplay(reader, state, now, order);
    forall sid | sid in now.sessions ensures Caught(state.sessions, now.sessions, sid) == now.sessions[sid] {
      UniformCatchesUp(state.sessions, now.sessions, sid, columns);
    }
  }

  lemma UniformCatchesUp(before: map<string, Row>, now: map<string, Row>, sid: string, columns: set<string>)
    requires Uniform(before, columns) && Uniform(now, columns) && sid in now
    ensures Caught(before, now, sid) == now[sid]
  {
    if sid in before {
      assert forall k :: k in before[sid] <==> k in columns;
      PatchCatchesUpExactly(before[sid], now[sid]);
    }
  }

  /** What the first `n` turns write: each reading against the last successful one. */
  function Turns(first: Sample, readings: seq<Reading>, n: nat): seq<Entry>
    requires AllDiffable(readings) && n <= |readings|
  {
    if n == 0 then []
    else
      assert Diffable(readings[n - 1]);
      Turns(first, readings, n - 1) + Turn(LastGood(first, readings, n - 1), readings[n - 1])
  }

  /** Readings come from samples: keyed rows, and an order that lists them. */
  predicate Diffable(r: Reading) {
    r.Taken? ==> Keyed(r.sample.sessions) && Lists(r.order, r.sample.sessions)
  }

  predicate AllDiffable(readings: seq<Reading>) {
    forall i :: 0 <= i < |readings| ==> Diffable(readings[i])
  }

  predicate AllUniform(readings: seq<Reading>, columns: set<string>) {
    forall i :: 0 <= i < |readings| ==> UniformReading(readings[i], columns)
  }

  predicate UniformReading(r: Reading, columns: set<string>) {
    r.Taken? ==> Uniform(r.sample.sessions, columns)
  }

  function Turn(state: Sample, r: Reading): seq<Entry>
    requires Diffable(r)
  {
    match r
    case Failed(detail) => [ReadError(detail)]
    case Taken(now, order) => Entries(Diff(state, now, order))
  }

  /** One turn of the sampling loop: what it writes and the sample it goes on from. */
  method TakeTurn(state: Sample, r: Reading) returns (entries: seq<Entry>, next: Sample)
    requires Diffable(r)
    ensures entries == Turn(state, r)
    ensures next == Next(state, r)
  {
    match r {
      case Failed(detail) =>
        return [ReadError(detail)], state;
      case Taken(now, order) =>
        var changes := Differences(state, now, order);
        return Entries(changes), now;
    }
  }

  function Opening(first: Sample): Entry {
    Start(|first.sessions|, first.events)
  }

  /** The details of the failed reads that a log holds, and those that there were. */
  function Errors(log: seq<Entry>): seq<string> {
    if log == [] then []
    else Errors(log[..|log| - 1]) + (match log[|log| - 1] case ReadError(detail) => [detail] case _ => [])
  }

  function Failures(readings: seq<Reading>, n: nat): seq<string>
    requires n <= |readings|
  {
    if n == 0 then []
    else Failures(readings, n - 1) + (match readings[n - 1] case Failed(detail) => [detail] case Taken(_, _) => [])
  }

  lemma {:induction false} ErrorsAppend(a: seq<Entry>, b: seq<Entry>)
    ensures Errors(a + b) == Errors(a) + Errors(b)
    decreases |b|
  {
    if b == [] {
      assert a + b == a;
    } else {
      var init := b[..|b| - 1];
      assert (a + b)[..|a + b| - 1] == a + init;
      ErrorsAppend(a, init);
    }
  }

  lemma {:induction false} NoErrorInEntries(changes: seq<Change>)
    ensures Errors(Entries(changes)) == []
  {
    if changes != [] {
      var init := changes[..|changes| - 1];
      NoErrorInEntries(init);
      ErrorsAppend(Entries(init), [Changed(changes[|changes| - 1])]);
      NoErrorInOne(Changed(changes[|changes| - 1]));
    }
  }

  lemma NoErrorInOne(e: Entry)
    ensures Errors([e]) == match e case ReadError(detail) => [detail] case _ => []
  {
    assert [e][..0] == [];
  }

  lemma ErrorsOfTurn(state: Sample, r: Reading)
    requires Diffable(r)
    ensures Errors(Turn(state, r)) == match r case Failed(detail) => [detail] case Taken(_, _) => []
  {
    match r
    case Failed(detail) => NoErrorInOne(ReadError(detail));
    case Taken(now, order) => NoErrorInEntries(Diff(state, now, order));
  }

  lemma OneTurnOfErrors(first: Sample, readings: seq<Reading>, n: nat)
    requires AllDiffable(readings) && n < |readings| && Errors(Turns(first, readings, n)) == Failures(readings, n)
    ensures Errors(Turns(first, readings, n + 1)) == Failures(readings, n + 1)
  {
    assert Diffable(readings[n]);
    ErrorsAppend(Turns(first, readings, n), Turn(LastGood(first, readings, n), readings[n]));
    ErrorsOfTurn(LastGood(first, readings, n), readings[n]);
  }

  lemma TurnErrors(first: Sample, readings: seq<Reading>, n: nat)
    requires AllDiffable(readings) && n <= |readings|
    ensures Errors(Turns(first, readings, n)) == Failures(readings, n)
  {
    for k := 0 to n
      invariant Errors(Turns(first, readings, k)) == Failures(readings, k)
    {
      OneTurnOfErrors(first, readings, k);
    }
  }

  /** The log records every failed read, with its detail and in order, and no other. */
  lemma ErrorsAreFailures(first: Sample, readings: seq<Reading>, n: nat)
    requires AllDiffable(readings) && n <= |readings|
    ensures Errors([Opening(first)] + Turns(first, readings, n) + [End]) == Failures(readings, n)
  {
    TurnErrors(first, readings, n);
    NoErrorInOne(Opening(first));
    NoErrorInOne(End);
    ErrorsAppend([Opening(first)], Turns(first, readings, n));
    ErrorsAppend([Opening(first)] + Turns(first, readings, n), [End]);
  }

  /** `main`: the opening entry, the sampling loop and the closing entry. */
  method Observe(first: Sample, readings: seq<Reading>) returns (log: seq<Entry>, state: Sample)
    requires AllDiffable(readings)
    ensures state == LastGood(first, readings, |readings|)
    ensures log == [Opening(first)] + Turns(first, readings, |readings|) + [End]
    ensures |log| >= 2 && log[0] == Start(|first.sessions|, first.events) && log[|log| - 1] == End
    ensures Errors(log) == Failures(readings, |readings|)
  {
    var entries;
    entries, state := TakeTurns(first, readings);
    log := [Start(|first.sessions|, first.events)] + entries + [End];
    ErrorsAreFailures(first, readings, |readings|);
  }

  /** The sampling loop. */
  method TakeTurns(first: Sample, readings: seq<Reading>) returns (log: seq<Entry>, state: Sample)
    requires AllDiffable(readings)
    ensures state == LastGood(first, readings, |readings|)
    ensures log == Turns(first, readings, |readings|)
  {
    state := first;
    log := [];
    for i := 0 to |readings|
      invariant state == LastGood(first, readings, i)
      invariant log == Turns(first, readings, i)
    {
      assert Diffable(readings[i]);
      var entries;
      entries, state := TakeTurn(state, readings[i]);
      log := log + entries;
    }
  }

  lemma TurnFollows(first: Sample, log: seq<Entry>, state: Sample, seen: set<string>, r: Reading, columns: set<string>,
                    longer: seq<Entry>, next: Sample, moreSeen: set<string>)
    requires Follows(ReplayLog(first, log), state, seen) && Uniform(state.sessions, columns)
    requires Diffable(r) && UniformReading(r, columns)
    requires longer == log + Turn(state, r) && next == Next(state, r) && moreSeen == seen + SessionsOf(r)
    ensures Follows(ReplayLog(first, longer), next, moreSeen) && Uniform(next.sessions, columns)
  {
    match r {
      case Failed(detail) =>
        ReplayQuiet(first, log, ReadError(detail));
        assert moreSeen == seen;
      case Taken(now, order) =>
        ReplayEntries(first, log, Diff(state, now, order));
        FollowsNext(ReplayLog(first, log), state, seen, now, order, columns);
    }
  }

  /** After `n` turns the reader of the log agrees with the observation. */
  predicate FollowsAfter(first: Sample, log: seq<Entry>, readings: seq<Reading>, columns: set<string>, n: nat)
    requires AllDiffable(readings) && n <= |readings|
  {
    var state := LastGood(first, readings, n);
    && Follows(ReplayLog(first, log + Turns(first, readings, n)), state, Seen(first, readings, n))
    && Uniform(state.sessions, columns)
  }

  lemma TurnsAppend(first: Sample, log: seq<Entry>, readings: seq<Reading>, n: nat)
    requires AllDiffable(readings) && n < |readings|
    ensures Diffable(readings[n])
    ensures log + Turns(first, readings, n + 1) ==
            log + Turns(first, readings, n) + Turn(LastGood(first, readings, n), readings[n])
  {
    assert Diffable(readings[n]);
  }

  lemma FollowsAtStart(first: Sample, log: seq<Entry>, readings: seq<Reading>, columns: set<string>)
    requires Uniform(first.sessions, columns) && ReplayLog(first, log) == first
    requires AllDiffable(readings)
    ensures FollowsAfter(first, log, readings, columns, 0)
  {
    assert log + Turns(first, readings, 0) == log;
  }

  lemma FollowsOneMore(first: Sample, log: seq<Entry>, readings: seq<Reading>, columns: set<string>, n: nat)
    requires AllDiffable(readings) && AllUniform(readings, columns) && n < |readings|
    requires FollowsAfter(first, log, readings, columns, n)
    ensures FollowsAfter(first, log, readings, columns, n + 1)
  {
    TurnsAppend(first, log, readings, n);
    assert UniformReading(readings[n], columns);
    TurnFollows(first, log + Turns(first, readings, n), LastGood(first, readings, n), Seen(first, readings, n),
                readings[n], columns, log + Turns(first, readings, n + 1), LastGood(first, readings, n + 1),
                Seen(first, readings, n + 1));
  }

  /** After any number of turns the reader of the log follows the observation. */
  lemma LogFollows(first: Sample, log: seq<Entry>, readings: seq<Reading>, columns: set<string>, n: nat)
    requires Uniform(first.sessions, columns) && ReplayLog(first, log) == first
    requires AllDiffable(readings) && AllUniform(readings, columns) && n <= |readings|
    ensures FollowsAfter(first, log, readings, columns, n)
  {
    FollowsAtStart(first, log, readings, columns);
    for k := 0 to n
      invariant FollowsAfter(first, log, readings, columns, k)
    {
      FollowsOneMore(first, log, readings, columns, k);
    }
  }

  /**
   Folding the whole log over the first sample gives the last successful sample exactly when
   that sample still has every session ever seen.
   */
  lemma LogReplaysExactly(first: Sample, readings: seq<Reading>, columns: set<string>)
    requires Uniform(first.sessions, columns)
    requires AllDiffable(readings) && AllUniform(readings, columns)
    ensures var n := |readings|;
            ReplayLog(first, [Opening(first)] + Turns(first, readings, n) + [End]) == LastGood(first, readings, n)
            <==> Seen(first, readings, n) == LastGood(first, readings, n).sessions.Keys
  {
    var start, n := [Opening(first)], |readings|;
    ReplayQuiet(first, [], start[0]);
    assert [] + start == start;
    LogFollows(first, start, readings, columns, n);
    ReplayQuiet(first, start + Turns(first, readings, n), End);
    FollowsExactly(ReplayLog(first, start + Turns(first, readings, n)),
                   LastGood(first, readings, n), Seen(first, readings, n));
  }

  lemma FollowsExactly(reader: Sample, state: Sample, seen: set<string>)
    requires Follows(reader, state, seen)
    ensures reader == state <==> seen == state.sessions.Keys
  {
    if seen == state.sessions.Keys {
      assert reader.sessions == state.sessions;
    }
  }

  /** A session that vanishes leaves no entry: the reader keeps it. */
  lemma VanishedSessionIsKept()
    ensures var row := map["session_id" := Text("s"), "neuron_id" := Number(1.0)];
            var first, last := Sample(map["s" := row], 0), Sample(map[], 0);
            var readings := [Taken(last, [])];
            && AllDiffable(readings) && LastGood(first, readings, 1) == last
            && ReplayLog(first, [Opening(first)] + Turns(first, readings, 1) + [End]) == first
  {
    var row := map["session_id" := Text("s"), "neuron_id" := Number(1.0)];
    var first, last := Sample(map["s" := row], 0), Sample(map[], 0);
    var readings := [Taken(last, [])];
    assert AllDiffable(readings);
    assert LastGood(first, readings, 0) == first;
    assert Turn(first, readings[0]) == [];
    assert Turns(first, readings, 1) == [];
    assert [Opening(first)] + [] == [] + [Opening(first)];
    ReplayQuiet(first, [], Opening(first));
    ReplayQuiet(first, [Opening(first)], End);
  }
}
