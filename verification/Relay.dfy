/**
 The job protocol of apps/public_relay_app.py: jobs and their audit rows move together
 through creation, delivery and result.  A request is one atomic step; identifiers are
 fresh; `time.time()` is read twice per request and never goes back.
 */
module Relay {
  import opened Options

  type Time = real
  type Json = string
  type Digest = string

  /** The two digests of the audit table; nothing is assumed about them. */
  datatype Hashes = Hashes(json: Json -> Digest, text: string -> Digest)

  datatype Status = Queued | Running | Completed | Failed

  datatype Job = Job(
    nodeId: string, task: string, payload: Json, seconds: real, status: Status,
    result: Option<Json>, error: Option<string>, createdAt: Time, updatedAt: Time)

  datatype Audit = Audit(
    nodeId: string, task: string, status: Status, createdAt: Time,
    startedAt: Option<Time>, completedAt: Option<Time>,
    payloadHash: Option<Digest>, resultHash: Option<Digest>, errorHash: Option<Digest>, updatedAt: Time)

  datatype Db = Db(nodes: set<string>, jobs: map<string, Job>, audits: map<string, Audit>)

  // ---------------------------------------------------------------- the handlers on values

  /** SQL's COALESCE of two values. */
  function Coalesce<T>(a: Option<T>, b: Option<T>): Option<T> {
    if a.Some? then a else b
  }

  function HashOf<T>(hash: T -> Digest, x: Option<T>): Option<Digest> {
    match x case Some(v) => Some(hash(v)) case None => None
  }

  /** What `_audit_job` is told about a job. */
  datatype Note = Note(
    nodeId: string, task: string, status: Status, createdAt: Option<Time>, startedAt: Option<Time>,
    completedAt: Option<Time>, payload: Option<Json>, result: Option<Json>, error: Option<string>)

  function AuditJob(audits: map<string, Audit>, h: Hashes, id: string, note: Note, now: Time): map<string, Audit> {
    if id !in audits then
      // `created_at or now`: a creation time of zero counts as missing.
      var created := if note.createdAt.Some? && note.createdAt.value != 0.0 then note.createdAt.value else now;
      audits[id := Audit(note.nodeId, note.task, note.status, created, note.startedAt, note.completedAt,
                         HashOf(h.json, note.payload), HashOf(h.json, note.result), HashOf(h.text, note.error), now)]
    else
      var row := audits[id];
      audits[id := row.(status := note.status,
                        startedAt := Coalesce(note.startedAt, row.startedAt),
                        completedAt := Coalesce(note.completedAt, row.completedAt),
                        payloadHash := Coalesce(row.payloadHash, HashOf(h.json, note.payload)),
                        resultHash := Coalesce(HashOf(h.json, note.result), row.resultHash),
                        errorHash := Coalesce(HashOf(h.text, note.error), row.errorHash),
                        updatedAt := now)]
  }

  /** `create_job`: None is the 404 for an unknown node. */
  function Create(db: Db, h: Hashes, node: string, task: string, payload: Json, seconds: real,
                  id: string, now: Time, auditNow: Time): Option<Db>
  {
    if node !in db.nodes then None
    else Some(db.(jobs := db.jobs[id := Job(node, task, payload, seconds, Queued, None, None, now, now)],
                  audits := AuditJob(db.audits, h, id,
                                     Note(node, task, Queued, Some(now), None, None, Some(payload), None, None),
                                     auditNow)))
  }

  predicate Waiting(db: Db, node: string, id: string) {
    id in db.jobs && db.jobs[id].nodeId == node && db.jobs[id].status == Queued
  }

  /** The row that `ORDER BY created_at LIMIT 1` may return. */
  predicate IsOldest(db: Db, node: string, id: string) {
    && Waiting(db, node, id)
    && forall other :: other in db.jobs && Waiting(db, node, other) ==>
                         db.jobs[id].createdAt <= db.jobs[other].createdAt
  }

  function Deliver(db: Db, h: Hashes, id: string, now: Time, auditNow: Time): Db
    requires id in db.jobs
  {
    var job := db.jobs[id];
    db.(jobs := db.jobs[id := job.(status := Running, updatedAt := now)],
        audits := AuditJob(db.audits, h, id,
                           Note(job.nodeId, job.task, Running, None, Some(now), None, None, None, None), auditNow))
  }

  /** `submit_result`: None is the 404 for a job that is not this node's. */
  function Submit(db: Db, h: Hashes, node: string, id: string, status: Status, result: Json, error: Option<string>,
                  now: Time, auditNow: Time): Option<Db>
    requires status == Completed || status == Failed
  {
    if id !in db.jobs || db.jobs[id].nodeId != node then None
    else
      var job := db.jobs[id];
      Some(db.(jobs := db.jobs[id := job.(status := status, result := Some(result), error := error, updatedAt := now)],
               audits := AuditJob(db.audits, h, id,
                                  Note(node, job.task, status, None, None, Some(now), None, Some(result), error),
                                  auditNow)))
  }

  // ---------------------------------------------------------------- the handlers

  lemma {:induction false} OldestExists(jobs: map<string, Job>, ids: set<string>)
    requires ids != {} && ids <= jobs.Keys
    ensures exists id :: id in ids && forall other :: other in ids ==> jobs[id].createdAt <= jobs[other].createdAt
    decreases |ids|
  {
    var x :| x in ids;
    if ids == {x} {
      assert x in ids && forall other :: other in ids ==> jobs[x].createdAt <= jobs[other].createdAt;
    } else {
      var rest := ids - {x};
      assert rest != {};
      OldestExists(jobs, rest);
      var m :| m in rest && forall other :: other in rest ==> jobs[m].createdAt <= jobs[other].createdAt;
      var best := if jobs[x].createdAt <= jobs[m].createdAt then x else m;
      assert forall other :: other in ids ==> other == x || other in rest;
      assert best in ids && forall other :: other in ids ==> jobs[best].createdAt <= jobs[other].createdAt;
    }
  }

  class PublicRelay {
    const h: Hashes
    var nodes: set<string>
    var jobs: map<string, Job>
    var audits: map<string, Audit>

    constructor (h: Hashes)
      ensures this.h == h && State() == Db({}, map[], map[])
    {
      this.h := h;
      nodes, jobs, audits := {}, map[], map[];
    }

    function State(): Db
      reads this
    {
      Db(nodes, jobs, audits)
    }

    method Register(node: string)
      modifies this
      ensures State() == old(State()).(nodes := old(nodes) + {node})
    {
      nodes := nodes + {node};
    }

    method AuditRow(id: string, note: Note, now: Time)
      modifies this`audits
      ensures audits == AuditJob(old(audits), h, id, note, now)
    {
      if id !in audits {
        var created := now;
        if note.createdAt.Some? && note.createdAt.value != 0.0 {
          created := note.createdAt.value;
        }
        audits := audits[id := Audit(note.nodeId, note.task, note.status, created, note.startedAt, note.completedAt,
                                     HashOf(h.json, note.payload), HashOf(h.json, note.result),
                                     HashOf(h.text, note.error), now)];
        return;
      }
      var row := audits[id];
      row := row.(status := note.status, updatedAt := now);
      row := row.(startedAt := Coalesce(note.startedAt, row.startedAt));
      row := row.(completedAt := Coalesce(note.completedAt, row.completedAt));
      row := row.(payloadHash := Coalesce(row.payloadHash, HashOf(h.json, note.payload)));
      row := row.(resultHash := Coalesce(HashOf(h.json, note.result), row.resultHash));
      row := row.(errorHash := Coalesce(HashOf(h.text, note.error), row.errorHash));
      audits := audits[id := row];
    }

    method CreateJob(node: string, task: string, payload: Json, seconds: real, id: string, now: Time, auditNow: Time)
      returns (ok: bool)
      modifies this
      ensures var next := Create(old(State()), h, node, task, payload, seconds, id, now, auditNow);
              ok == next.Some? && State() == next.GetOr(old(State()))
    {
      if node !in nodes {
        return false;
      }
      jobs := jobs[id := Job(node, task, payload, seconds, Queued, None, None, now, now)];
      AuditRow(id, Note(node, task, Queued, Some(now), None, None, Some(payload), None, None), auditNow);
      ok := true;
    }

    method NextJob(node: string, now: Time, auditNow: Time) returns (picked: Option<string>)
      modifies this
      ensures picked.None? ==> State() == old(State()) && forall id :: !Waiting(old(State()), node, id)
      ensures picked.Some? ==> IsOldest(old(State()), node, picked.value)
                               && State() == Deliver(old(State()), h, picked.value, now, auditNow)
    {
      var waiting := set id | id in jobs && Waiting(State(), node, id);
      if waiting == {} {
        assert forall id :: Waiting(State(), node, id) ==> id in waiting;
        return None;
      }
      OldestExists(jobs, waiting);
      var id :| id in waiting && forall other :: other in waiting ==> jobs[id].createdAt <= jobs[other].createdAt;
      var row := jobs[id];
      jobs := jobs[id := row.(status := Running, updatedAt := now)];
      AuditRow(id, Note(node, row.task, Running, None, Some(now), None, None, None, None), auditNow);
      picked := Some(id);
    }

    method SubmitResult(node: string, id: string, status: Status, result: Json, error: Option<string>,
                        now: Time, auditNow: Time)
      returns (ok: bool)
      requires status == Completed || status == Failed
      modifies this
      ensures var next := Submit(old(State()), h, node, id, status, result, error, now, auditNow);
              ok == next.Some? && State() == next.GetOr(old(State()))
      ensures ok <==> id in old(jobs) && old(jobs)[id].nodeId == node
      ensures ok ==> jobs == old(jobs)[id := old(jobs)[id].(status := status, result := Some(result), error := error,
                                                            updatedAt := now)]
    {
      if id !in jobs || jobs[id].nodeId != node {
        return false;
      }
      var row := jobs[id];
      jobs := jobs[id := row.(status := status, result := Some(result), error := error, updatedAt := now)];
      AuditRow(id, Note(node, row.task, status, None, None, Some(now), None, Some(result), error), auditNow);
      ok := true;
    }
  }

  // ---------------------------------------------------------------- runs

  datatype Delivery = Delivery(jobId: string, nodeId: string, createdAt: Time)

  datatype Submission = Submission(jobId: string, error: Option<string>)

  /** The database, the clock, and what has been delivered and submitted so far. */
  datatype System = System(db: Db, clock: Time, deliveries: seq<Delivery>, submissions: seq<Submission>)

  datatype Event =
    | Registered(node: string)
    | Created(node: string, task: string, payload: Json, seconds: real, id: string)
    | Polled(node: string, picked: Option<string>)
    | Submitted(node: string, id: string, status: Status, result: Json, error: Option<string>)

  ghost predicate Init(s: System) {
    s.db == Db({}, map[], map[]) && s.clock > 0.0 && s.deliveries == [] && s.submissions == []
  }

  /** One request, handled at time `now` with the audit row stamped at `s'.clock`. */
  ghost predicate Step(h: Hashes, s: System, e: Event, now: Time, s': System) {
    && s.clock <= now <= s'.clock
    && match e
       case Registered(node) =>
         s' == s.(db := s.db.(nodes := s.db.nodes + {node}), clock := s'.clock)
       case Created(node, task, payload, seconds, id) =>
         && id !in s.db.jobs && id !in s.db.audits
         && s' == s.(db := Create(s.db, h, node, task, payload, seconds, id, now, s'.clock).GetOr(s.db),
                     clock := s'.clock)
       case Polled(node, None) =>
         (forall id :: !Waiting(s.db, node, id)) && s' == s.(clock := s'.clock)
       case Polled(node, Some(id)) =>
         && IsOldest(s.db, node, id)
         && s' == s.(db := Deliver(s.db, h, id, now, s'.clock), clock := s'.clock,
                     deliveries := s.deliveries + [Delivery(id, node, s.db.jobs[id].createdAt)])
       case Submitted(node, id, status, result, error) =>
         && (status == Completed || status == Failed)
         && var next := Submit(s.db, h, node, id, status, result, error, now, s'.clock);
            s' == s.(db := next.GetOr(s.db), clock := s'.clock,
                     submissions := s.submissions + (if next.Some? then [Submission(id, error)] else []))
  }

  datatype Turn = Turn(event: Event, now: Time)

  ghost predicate IsRun(h: Hashes, states: seq<System>, turns: seq<Turn>) {
    && |states| == |turns| + 1
    && Init(states[0])
    && forall i :: 0 <= i < |turns| ==> Step(h, states[i], turns[i].event, turns[i].now, states[i + 1])
  }

  // ---------------------------------------------------------------- the invariant

  predicate Delivered(s: System, id: string) {
    exists d :: d in s.deliveries && d.jobId == id
  }

  /** The last error that was not null, over all results submitted for a job. */
  function LastError(submissions: seq<Submission>, id: string): Option<string> {
    if submissions == [] then None
    else
      var last := submissions[|submissions| - 1];
      if last.jobId == id && last.error.Some? then last.error
      else LastError(submissions[..|submissions| - 1], id)
  }

  predicate Finished(j: Job) {
    j.status == Completed || j.status == Failed
  }

  /** A job and its audit row tell the same story. */
  ghost predicate Agrees(h: Hashes, s: System, id: string)
    requires id in s.db.jobs && id in s.db.audits
  {
    var j, a := s.db.jobs[id], s.db.audits[id];
    && a.nodeId == j.nodeId && a.task == j.task && a.status == j.status && a.createdAt == j.createdAt
    && a.payloadHash == Some(h.json(j.payload))
    && (Finished(j) ==> j.result.Some? && a.resultHash == Some(h.json(j.result.value)))
    && (Finished(j) <==> a.completedAt.Some?)
    && (j.error.Some? ==> LastError(s.submissions, id) == j.error)
    && a.errorHash == HashOf(h.text, LastError(s.submissions, id))
    && (a.startedAt.Some? <==> Delivered(s, id))
    && (j.status == Running ==> Delivered(s, id))
    && (j.status == Queued ==> !Delivered(s, id))
    && (a.startedAt.Some? && a.completedAt.Some? ==> a.startedAt.value <= a.completedAt.value)
    && (a.startedAt.Some? ==> a.startedAt.value <= s.clock)
    && (a.completedAt.Some? ==> a.completedAt.value <= s.clock)
    && j.createdAt <= s.clock
  }

  ghost predicate AuditInv(h: Hashes, s: System) {
    && s.clock > 0.0
    && s.db.jobs.Keys == s.db.audits.Keys
    && (forall id :: id in s.db.jobs ==> Agrees(h, s, id))
    && (forall x :: x in s.submissions ==> x.jobId in s.db.jobs)
  }

  ghost predicate DeliveryInv(s: System) {
    && (forall d :: d in s.deliveries ==>
          d.jobId in s.db.jobs && s.db.jobs[d.jobId].nodeId == d.nodeId && s.db.jobs[d.jobId].createdAt == d.createdAt
          && s.db.jobs[d.jobId].status != Queued)
    && (forall id :: id in s.db.jobs ==> s.db.jobs[id].createdAt <= s.clock)
    && (forall i, j :: 0 <= i < j < |s.deliveries| ==> s.deliveries[i].jobId != s.deliveries[j].jobId)
    && (forall i, j :: 0 <= i < j < |s.deliveries| && s.deliveries[i].nodeId == s.deliveries[j].nodeId ==>
          s.deliveries[i].createdAt <= s.deliveries[j].createdAt)
    && (forall d, id :: d in s.deliveries && id in s.db.jobs && Waiting(s.db, d.nodeId, id) ==>
          d.createdAt <= s.db.jobs[id].createdAt)
  }

  /** Deliveries stay well ordered while the jobs waiting for them only shrink. */
  lemma DeliveriesKept(s: System, s': System)
    requires DeliveryInv(s) && s'.deliveries == s.deliveries && s.clock <= s'.clock
    requires s.db.jobs.Keys <= s'.db.jobs.Keys
    requires forall id :: id in s.db.jobs ==>
      var before, after := s.db.jobs[id], s'.db.jobs[id];
      after.nodeId == before.nodeId && after.createdAt == before.createdAt
      && (after.status == Queued ==> before.status == Queued)
    requires forall id :: id in s'.db.jobs && id !in s.db.jobs ==>
      s.clock <= s'.db.jobs[id].createdAt <= s'.clock
    ensures DeliveryInv(s')
  {
    forall d, id | d in s'.deliveries && id in s'.db.jobs && Waiting(s'.db, d.nodeId, id)
      ensures d.createdAt <= s'.db.jobs[id].createdAt
    {
      assert d in s.deliveries;
      if id in s.db.jobs {
        assert Waiting(s.db, d.nodeId, id);
      } else {
        assert d.createdAt <= s.clock;
      }
    }
  }

  lemma DeliverStep(h: Hashes, s: System, e: Event, now: Time, s': System)
    requires DeliveryInv(s) && Step(h, s, e, now, s') && e.Polled? && e.picked.Some?
    ensures DeliveryInv(s')
  {
    var id := e.picked.value;
    var d := Delivery(id, e.node, s.db.jobs[id].createdAt);
    assert s'.deliveries == s.deliveries + [d];
    forall x | x in s.deliveries
      ensures x.jobId != id && (x.nodeId == e.node ==> x.createdAt <= d.createdAt)
    {
      assert x.nodeId == e.node ==> Waiting(s.db, x.nodeId, id);
    }
    OrderedWithOneMore(s.deliveries, d);
    WaitingAreNewer(h, s, e, now, s');
  }

  lemma OrderedWithOneMore(ds: seq<Delivery>, d: Delivery)
    requires forall i, j :: 0 <= i < j < |ds| ==> ds[i].jobId != ds[j].jobId
    requires forall i, j :: 0 <= i < j < |ds| && ds[i].nodeId == ds[j].nodeId ==> ds[i].createdAt <= ds[j].createdAt
    requires forall x :: x in ds ==> x.jobId != d.jobId && (x.nodeId == d.nodeId ==> x.createdAt <= d.createdAt)
    ensures var all := ds + [d];
            && (forall x :: x in all <==> x in ds || x == d)
            && (forall i, j :: 0 <= i < j < |all| ==> all[i].jobId != all[j].jobId)
            && (forall i, j :: 0 <= i < j < |all| && all[i].nodeId == all[j].nodeId ==>
                  all[i].createdAt <= all[j].createdAt)
  {
    assert forall i :: 0 <= i < |ds| ==> ds[i] in ds;
  }

  lemma WaitingAreNewer(h: Hashes, s: System, e: Event, now: Time, s': System)
    requires DeliveryInv(s) && Step(h, s, e, now, s') && e.Polled? && e.picked.Some?
    ensures forall x, other :: x in s'.deliveries && other in s'.db.jobs && Waiting(s'.db, x.nodeId, other) ==>
              x.createdAt <= s'.db.jobs[other].createdAt
  {
    var id := e.picked.value;
    var d := Delivery(id, e.node, s.db.jobs[id].createdAt);
    forall x, other | x in s'.deliveries && other in s'.db.jobs && Waiting(s'.db, x.nodeId, other)
      ensures x.createdAt <= s'.db.jobs[other].createdAt
    {
      assert x in s.deliveries || x == d;
      assert other != id && Waiting(s.db, x.nodeId, other);
    }
  }

  lemma DeliveryStep(h: Hashes, s: System, e: Event, now: Time, s': System)
    requires DeliveryInv(s) && Step(h, s, e, now, s')
    ensures DeliveryInv(s')
  {
    if e.Polled? && e.picked.Some? {
      DeliverStep(h, s, e, now, s');
    } else {
      assert s'.deliveries == s.deliveries;
      DeliveriesKept(s, s');
    }
  }

  lemma AuditUnchanged(h: Hashes, s: System, s': System, id: string)
    requires id in s.db.jobs && id in s.db.audits && Agrees(h, s, id)
    requires id in s'.db.jobs && id in s'.db.audits
    requires s'.db.jobs[id] == s.db.jobs[id] && s'.db.audits[id] == s.db.audits[id] && s.clock <= s'.clock
    requires Delivered(s', id) <==> Delivered(s, id)
    requires LastError(s'.submissions, id) == LastError(s.submissions, id)
    ensures Agrees(h, s', id)
  {
  }

  lemma AuditCreate(h: Hashes, s: System, e: Event, now: Time, s': System)
    requires AuditInv(h, s) && DeliveryInv(s) && Step(h, s, e, now, s') && e.Created?
    ensures AuditInv(h, s')
  {
    forall other | other in s'.db.jobs && other in s.db.jobs ensures Agrees(h, s', other) {
      AuditUnchanged(h, s, s', other);
    }
    if e.node in s.db.nodes {
      assert s'.db.jobs.Keys == s.db.jobs.Keys + {e.id};
      assert s'.db.audits.Keys == s.db.audits.Keys + {e.id};
      NoError(s.submissions, e.id);
      assert !Delivered(s', e.id);
      assert Agrees(h, s', e.id);
    }
  }

  lemma {:induction false} NoError(submissions: seq<Submission>, id: string)
    requires forall x :: x in submissions ==> x.jobId != id
    ensures LastError(submissions, id) == None
  {
    if submissions != [] {
      NoError(submissions[..|submissions| - 1], id);
    }
  }

  lemma AuditDeliver(h: Hashes, s: System, e: Event, now: Time, s': System)
    requires AuditInv(h, s) && Step(h, s, e, now, s') && e.Polled? && e.picked.Some?
    ensures AuditInv(h, s')
  {
    var id := e.picked.value;
    var d := Delivery(id, e.node, s.db.jobs[id].createdAt);
    assert s'.db.jobs.Keys == s.db.jobs.Keys && s'.db.audits.Keys == s.db.audits.Keys;
    assert Agrees(h, s, id);
    assert Delivered(s', id) by { assert d in s'.deliveries; }
    assert Agrees(h, s', id);
    forall other | other in s.db.jobs && other != id ensures Agrees(h, s', other) {
      DeliveredOthers(s, d, s', other);
      AuditUnchanged(h, s, s', other);
    }
  }

  lemma DeliveredOthers(s: System, d: Delivery, s': System, other: string)
    requires s'.deliveries == s.deliveries + [d] && other != d.jobId
    ensures Delivered(s', other) <==> Delivered(s, other)
  {
    if Delivered(s, other) {
      var x :| x in s.deliveries && x.jobId == other;
      assert x in s'.deliveries;
    }
  }

  lemma LastErrorAppend(submissions: seq<Submission>, x: Submission, id: string)
    ensures LastError(submissions + [x], id) ==
            if x.jobId == id && x.error.Some? then x.error else LastError(submissions, id)
  {
    assert (submissions + [x])[..|submissions|] == submissions;
  }

  lemma AuditSubmit(h: Hashes, s: System, e: Event, now: Time, s': System)
    requires AuditInv(h, s) && Step(h, s, e, now, s') && e.Submitted?
    ensures AuditInv(h, s')
  {
    var id := e.id;
    if id in s.db.jobs && s.db.jobs[id].nodeId == e.node {
      var x := Submission(id, e.error);
      assert s'.submissions == s.submissions + [x];
      assert s'.db.jobs.Keys == s.db.jobs.Keys && s'.db.audits.Keys == s.db.audits.Keys;
      AuditSubmitted(h, s, e, now, s');
      forall other | other in s.db.jobs && other != id ensures Agrees(h, s', other) {
        LastErrorAppend(s.submissions, x, other);
        AuditUnchanged(h, s, s', other);
      }
    } else {
      assert s'.submissions == s.submissions;
      forall other | other in s.db.jobs ensures Agrees(h, s', other) {
        AuditUnchanged(h, s, s', other);
      }
    }
  }

  lemma AuditSubmitted(h: Hashes, s: System, e: Event, now: Time, s': System)
    requires Step(h, s, e, now, s') && e.Submitted?
    requires e.id in s.db.jobs && s.db.jobs[e.id].nodeId == e.node
    requires e.id in s.db.audits && Agrees(h, s, e.id)
    ensures e.id in s'.db.jobs && e.id in s'.db.audits && Agrees(h, s', e.id)
  {
    LastErrorAppend(s.submissions, Submission(e.id, e.error), e.id);
    assert Delivered(s', e.id) <==> Delivered(s, e.id);
  }

  lemma AuditStep(h: Hashes, s: System, e: Event, now: Time, s': System)
    requires AuditInv(h, s) && DeliveryInv(s) && Step(h, s, e, now, s')
    ensures AuditInv(h, s')
  {
    match e
    case Created(_, _, _, _, _) => AuditCreate(h, s, e, now, s');
    case Polled(_, Some(_)) => AuditDeliver(h, s, e, now, s');
    case Submitted(_, _, _, _, _) => AuditSubmit(h, s, e, now, s');
    case Registered(_) =>
      forall id | id in s.db.jobs ensures Agrees(h, s', id) { AuditUnchanged(h, s, s', id); }
    case Polled(_, None) =>
      forall id | id in s.db.jobs ensures Agrees(h, s', id) { AuditUnchanged(h, s, s', id); }
  }

  // ---------------------------------------------------------------- over whole runs

  lemma {:induction false} InvariantsHold(h: Hashes, states: seq<System>, turns: seq<Turn>, i: nat)
    requires IsRun(h, states, turns) && i < |states|
    ensures AuditInv(h, states[i]) && DeliveryInv(states[i])
  {
    if i > 0 {
      InvariantsHold(h, states, turns, i - 1);
      var t := turns[i - 1];
      DeliveryStep(h, states[i - 1], t.event, t.now, states[i]);
      AuditStep(h, states[i - 1], t.event, t.now, states[i]);
    }
  }

  /** In every reachable state the audit table agrees with the jobs, row by row. */
  lemma AuditAgreesWithJobs(h: Hashes, states: seq<System>, turns: seq<Turn>, i: nat)
    requires IsRun(h, states, turns) && i < |states|
    ensures var s := states[i];
            s.db.jobs.Keys == s.db.audits.Keys && forall id :: id in s.db.jobs ==> Agrees(h, s, id)
  {
    InvariantsHold(h, states, turns, i);
  }

  // ---------------------------------------------------------------- what was submitted

  /** The event is a result that the relay accepts: the job exists and is this node's. */
  ghost predicate Accepts(s: System, e: Event, id: string) {
    e.Submitted? && e.id == id && id in s.db.jobs && s.db.jobs[id].nodeId == e.node
  }

  /** Turn `j` is the last before state `i` whose result is accepted for the job. */
  ghost predicate IsLastAccepted(states: seq<System>, turns: seq<Turn>, j: int, i: int, id: string) {
    && 0 <= j < i <= |turns| && i < |states| && Accepts(states[j], turns[j].event, id)
    && forall k :: j < k < i ==> !Accepts(states[k], turns[k].event, id)
  }

  /** What the tables hold of a result, and nothing else about it. */
  ghost predicate HoldsResult(h: Hashes, db: Db, id: string, status: Status, result: Json, error: Option<string>,
                              completedAt: Time)
  {
    && id in db.jobs && id in db.audits
    && db.jobs[id].status == status && db.jobs[id].result == Some(result) && db.jobs[id].error == error
    && db.audits[id].status == status && db.audits[id].resultHash == Some(h.json(result))
    && db.audits[id].completedAt == Some(completedAt)
    && (error.Some? ==> db.audits[id].errorHash == Some(h.text(error.value)))
  }

  ghost predicate HoldsNoResult(db: Db, id: string) {
    && id in db.jobs && id in db.audits
    && !Finished(db.jobs[id]) && db.jobs[id].result == None && db.jobs[id].error == None
    && db.audits[id].resultHash == None && db.audits[id].completedAt == None && db.audits[id].errorHash == None
  }

  lemma AcceptedStep(h: Hashes, s: System, e: Event, now: Time, s': System, id: string)
    requires Step(h, s, e, now, s') && Accepts(s, e, id) && id in s.db.audits
    ensures HoldsResult(h, s'.db, id, e.status, e.result, e.error, now)
    ensures e.status == Completed || e.status == Failed
    ensures s'.db.jobs[id].updatedAt == now && s'.db.audits[id].updatedAt == s'.clock
  {
  }

  lemma ResultStays(h: Hashes, s: System, e: Event, now: Time, s': System, id: string,
                    status: Status, result: Json, error: Option<string>, completedAt: Time)
    requires Step(h, s, e, now, s') && !Accepts(s, e, id) && (status == Completed || status == Failed)
    requires HoldsResult(h, s.db, id, status, result, error, completedAt)
    ensures HoldsResult(h, s'.db, id, status, result, error, completedAt)
  {
  }

  lemma NoResultStays(h: Hashes, s: System, e: Event, now: Time, s': System, id: string)
    requires Step(h, s, e, now, s') && !Accepts(s, e, id)
    requires if id in s.db.jobs then HoldsNoResult(s.db, id) else id !in s.db.audits
    ensures if id in s'.db.jobs then HoldsNoResult(s'.db, id) else id !in s'.db.audits
  {
  }

  /**
   Both tables hold the last accepted result of a job: its status, its result and error, the
   hash of that result, and the time at which it came.
   */
  lemma {:induction false} LastResultIsStored(h: Hashes, states: seq<System>, turns: seq<Turn>, j: int, i: int, id: string)
    requires IsRun(h, states, turns) && IsLastAccepted(states, turns, j, i, id)
    ensures turns[j].event.status == Completed || turns[j].event.status == Failed
    ensures var e := turns[j].event;
            HoldsResult(h, states[i].db, id, e.status, e.result, e.error, turns[j].now)
    decreases i
  {
    var e, t := turns[j].event, turns[i - 1];
    if j + 1 == i {
      InvariantsHold(h, states, turns, j);
      AcceptedStep(h, states[j], e, turns[j].now, states[i], id);
    } else {
      assert IsLastAccepted(states, turns, j, i - 1, id);
      LastResultIsStored(h, states, turns, j, i - 1, id);
      ResultStays(h, states[i - 1], t.event, t.now, states[i], id, e.status, e.result, e.error, turns[j].now);
    }
  }

  lemma {:induction false} NothingSubmitted(h: Hashes, states: seq<System>, turns: seq<Turn>, i: nat, id: string)
    requires IsRun(h, states, turns) && i < |states|
    requires forall k :: 0 <= k < i ==> !Accepts(states[k], turns[k].event, id)
    ensures if id in states[i].db.jobs then HoldsNoResult(states[i].db, id) else id !in states[i].db.audits
    decreases i
  {
    if i > 0 {
      NothingSubmitted(h, states, turns, i - 1, id);
      NoResultStays(h, states[i - 1], turns[i - 1].event, turns[i - 1].now, states[i], id);
    }
  }

  lemma {:induction false} LastAcceptedExists(states: seq<System>, turns: seq<Turn>, k: int, i: int, id: string)
    returns (j: int)
    requires 0 <= k < i <= |turns| && i < |states| && Accepts(states[k], turns[k].event, id)
    ensures IsLastAccepted(states, turns, j, i, id)
    decreases i
  {
    if Accepts(states[i - 1], turns[i - 1].event, id) {
      j := i - 1;
    } else {
      j := LastAcceptedExists(states, turns, k, i - 1, id);
    }
  }

  /** A job is finished exactly when some accepted result names it; otherwise it holds none. */
  lemma FinishedExactly(h: Hashes, states: seq<System>, turns: seq<Turn>, i: nat, id: string)
    requires IsRun(h, states, turns) && i < |states| && id in states[i].db.jobs
    ensures Finished(states[i].db.jobs[id]) <==> exists k :: 0 <= k < i && Accepts(states[k], turns[k].event, id)
    ensures !Finished(states[i].db.jobs[id]) ==> HoldsNoResult(states[i].db, id)
  {
    if k :| 0 <= k < i && Accepts(states[k], turns[k].event, id) {
      var j := LastAcceptedExists(states, turns, k, i, id);
      LastResultIsStored(h, states, turns, j, i, id);
    } else {
      NothingSubmitted(h, states, turns, i, id);
    }
  }

  // ---------------------------------------------------------------- what was created and delivered

  /** The job and its audit row are those of a creation at `now`. */
  ghost predicate IsOfCreation(h: Hashes, db: Db, e: Event, now: Time)
    requires e.Created?
  {
    && e.id in db.jobs && e.id in db.audits
    && db.jobs[e.id].nodeId == e.node && db.jobs[e.id].task == e.task && db.jobs[e.id].payload == e.payload
    && db.jobs[e.id].seconds == e.seconds && db.jobs[e.id].createdAt == now
    && db.audits[e.id].nodeId == e.node && db.audits[e.id].task == e.task
    && db.audits[e.id].payloadHash == Some(h.json(e.payload)) && db.audits[e.id].createdAt == now
  }

  lemma CreationStep(h: Hashes, s: System, e: Event, now: Time, s': System)
    requires Step(h, s, e, now, s') && e.Created? && e.node in s.db.nodes && s.clock > 0.0
    ensures IsOfCreation(h, s'.db, e, now)
    ensures s'.db.jobs[e.id].status == Queued && s'.db.audits[e.id].startedAt == None
    ensures HoldsNoResult(s'.db, e.id)
    ensures s'.db.jobs[e.id].updatedAt == now && s'.db.audits[e.id].updatedAt == s'.clock
  {
  }

  lemma CreationStays(h: Hashes, s: System, e: Event, now: Time, s': System, c: Event, created: Time)
    requires Step(h, s, e, now, s') && c.Created? && IsOfCreation(h, s.db, c, created)
    ensures IsOfCreation(h, s'.db, c, created)
  {
  }

  /** Every job is that of the event that created it, whatever has happened since. */
  lemma {:induction false} CreationIsStored(h: Hashes, states: seq<System>, turns: seq<Turn>, i: nat, id: string)
    returns (k: nat)
    requires IsRun(h, states, turns) && i < |states| && id in states[i].db.jobs
    ensures k < i && turns[k].event.Created? && turns[k].event.id == id
    ensures turns[k].event.node in states[k].db.nodes
    ensures IsOfCreation(h, states[i].db, turns[k].event, turns[k].now)
    decreases i
  {
    var t := turns[i - 1];
    assert Step(h, states[i - 1], t.event, t.now, states[i]);
    InvariantsHold(h, states, turns, i - 1);
    if id in states[i - 1].db.jobs {
      k := CreationIsStored(h, states, turns, i - 1, id);
      CreationStays(h, states[i - 1], t.event, t.now, states[i], turns[k].event, turns[k].now);
    } else {
      k := i - 1;
      CreationStep(h, states[i - 1], t.event, t.now, states[i]);
    }
  }

  /** A poll of a known job sets it running and stamps its start, and leaves what it was given. */
  lemma DeliveryStored(h: Hashes, s: System, e: Event, now: Time, s': System)
    requires AuditInv(h, s) && Step(h, s, e, now, s') && e.Polled? && e.picked.Some?
    ensures var id := e.picked.value;
            && id in s.db.jobs && id in s'.db.jobs && id in s'.db.audits
            && s.db.jobs[id].status == Queued && s'.db.jobs[id] == s.db.jobs[id].(status := Running, updatedAt := now)
            && s'.db.audits[id].status == Running && s'.db.audits[id].startedAt == Some(now)
            && s'.db.audits[id].updatedAt == s'.clock
            && s'.deliveries == s.deliveries + [Delivery(id, e.node, s.db.jobs[id].createdAt)]
    ensures forall other :: other in s.db.jobs && other != e.picked.value ==>
              other in s'.db.jobs && s'.db.jobs[other] == s.db.jobs[other]
  {
  }

  /** Over a run each job is delivered at most once, and each node gets its jobs oldest first. */
  lemma DeliveredOnceInOrder(h: Hashes, states: seq<System>, turns: seq<Turn>, i: nat)
    requires IsRun(h, states, turns) && i < |states|
    ensures var ds := states[i].deliveries;
            && (forall a, b :: 0 <= a < b < |ds| ==> ds[a].jobId != ds[b].jobId)
            && (forall a, b :: 0 <= a < b < |ds| && ds[a].nodeId == ds[b].nodeId ==>
                  ds[a].createdAt <= ds[b].createdAt)
            && (forall d :: d in ds ==>
                  d.jobId in states[i].db.jobs && states[i].db.jobs[d.jobId].nodeId == d.nodeId)
  {
    InvariantsHold(h, states, turns, i);
  }

  /** A job that has left the queue never returns to it, and its identity never changes. */
  lemma {:induction false} NeverRequeued(h: Hashes, states: seq<System>, turns: seq<Turn>, i: nat, j: nat, id: string)
    requires IsRun(h, states, turns) && i <= j < |states| && id in states[i].db.jobs
    ensures id in states[j].db.jobs
    ensures var before, after := states[i].db.jobs[id], states[j].db.jobs[id];
            && (before.status != Queued ==> after.status != Queued)
            && after.nodeId == before.nodeId && after.task == before.task
            && after.payload == before.payload && after.createdAt == before.createdAt
    decreases j
  {
    if i < j {
      NeverRequeued(h, states, turns, i, j - 1, id);
      var t := turns[j - 1];
      assert Step(h, states[j - 1], t.event, t.now, states[j]);
    }
  }

  /**
   The error hash is that of the job's own error exactly when the job has an error, or no
   result has ever carried one; otherwise COALESCE has kept an older hash.
   */
  lemma ErrorHashIsCurrentExactly(h: Hashes, states: seq<System>, turns: seq<Turn>, i: nat, id: string)
    requires IsRun(h, states, turns) && i < |states| && id in states[i].db.jobs
    ensures id in states[i].db.audits
    ensures var s := states[i];
            s.db.audits[id].errorHash == HashOf(h.text, s.db.jobs[id].error)
            <==> s.db.jobs[id].error.Some? || LastError(s.submissions, id).None?
  {
    AuditAgreesWithJobs(h, states, turns, i);
    assert Agrees(h, states[i], id);
  }

  // ---------------------------------------------------------------- a stale hash

  /** The history: one node, one job, a result that fails and then one that succeeds. */
  function StaleEvents(): seq<Event> {
    [Registered("n"), Created("n", "echo", "{}", 2.0, "j"),
     Submitted("n", "j", Failed, "{}", Some("boom")), Submitted("n", "j", Completed, "{}", None)]
  }

  function Next(h: Hashes, s: System, e: Event): System
    requires e.Submitted? ==> e.status == Completed || e.status == Failed
  {
    var now := s.clock + 1.0;
    match e
    case Registered(node) => s.(db := s.db.(nodes := s.db.nodes + {node}), clock := now)
    case Created(node, task, payload, seconds, id) =>
      s.(db := Create(s.db, h, node, task, payload, seconds, id, now, now).GetOr(s.db), clock := now)
    case Polled(_, _) => s.(clock := now)
    case Submitted(node, id, status, result, error) =>
      var next := Submit(s.db, h, node, id, status, result, error, now, now);
      s.(db := next.GetOr(s.db), clock := now,
         submissions := s.submissions + (if next.Some? then [Submission(id, error)] else []))
  }

  /**
   The converse for errors fails: after this run the latest result of the job carries no
   error, and its audit row still holds the hash of the one before.
   */
  lemma StaleErrorHash(h: Hashes) returns (states: seq<System>, turns: seq<Turn>)
    ensures IsRun(h, states, turns) && |turns| == 4
    ensures var s := states[4].db;
            "j" in s.jobs && "j" in s.audits
            && s.jobs["j"].error == None && s.audits["j"].errorHash == Some(h.text("boom"))
  {
    var es := StaleEvents();
    var s0 := System(Db({}, map[], map[]), 1.0, [], []);
    var s1 := Next(h, s0, es[0]);
    var s2 := Next(h, s1, es[1]);
    assert s1.db.nodes == {"n"} && "j" !in s1.db.jobs;
    assert s2.db.jobs["j"].nodeId == "n" && "j" in s2.db.audits;
    var s3 := Next(h, s2, es[2]);
    assert s3.db.jobs["j"].nodeId == "n" && s3.db.audits["j"].errorHash == Some(h.text("boom"));
    var s4 := Next(h, s3, es[3]);
    assert s4.db.audits["j"].errorHash == Some(h.text("boom"));
    states := [s0, s1, s2, s3, s4];
    turns := [Turn(es[0], 2.0), Turn(es[1], 3.0), Turn(es[2], 4.0), Turn(es[3], 5.0)];
    assert Step(h, s0, es[0], 2.0, s1);
    assert Step(h, s1, es[1], 3.0, s2);
    assert Step(h, s2, es[2], 4.0, s3);
    assert Step(h, s3, es[3], 5.0, s4);
  }
}
