/**
 The operations of `AutonomousTaskStore` in triade/runtime/task_leases.py that the
 recovery worker calls, on the columns they read and write, and the proof that they
 keep the contract of `LeaseContract`.
 */
module TaskLeases {
  import opened Options
  import LC = LeaseContract

  type Time = real

  datatype Status = Pending | Queued | RetryWait | Deferred | Leased | Running | Recovered | Completed | DeadLetter

  datatype Row = Row(
    key: string, values: seq<int>, priority: int, createdAt: Time, status: Status, retryAfter: Option<Time>,
    worker: Option<string>, expiresAt: Option<Time>,
    attempt: nat, maxAttempts: nat, generation: nat, resultRef: Option<string>)

  type Table = map<string, Row>

  predicate Claimable(r: Row, now: Time) {
    && (r.status == Pending || r.status == Queued || r.status == Recovered
        || ((r.status == RetryWait || r.status == Deferred) && r.retryAfter.Some? && r.retryAfter.value <= now))
    && r.attempt < r.maxAttempts
  }

  /** The priority, less one for every full minute of waiting, up to a hundred. */
  function Score(r: Row, now: Time): int {
    var minutes := Truncated((now - r.createdAt) / 60.0);
    r.priority - (if minutes < 100 then minutes else 100)
  }

  /** `CAST(x AS INTEGER)` drops the fraction. */
  function Truncated(x: real): int {
    if x >= 0.0 then x.Floor else -((-x).Floor)
  }

  /** ORDER BY the score, then the creation time. */
  predicate ComesBefore(a: Row, b: Row, now: Time) {
    Score(a, now) < Score(b, now) || (Score(a, now) == Score(b, now) && a.createdAt < b.createdAt)
  }

  /** A row that the query may return. */
  ghost predicate IsNext(t: Table, id: string, now: Time) {
    && id in t && Claimable(t[id], now)
    && forall other :: other in t && Claimable(t[other], now) ==> !ComesBefore(t[other], t[id], now)
  }

  lemma {:induction false} NextExists(t: Table, ids: set<string>, now: Time)
    requires ids != {} && ids <= t.Keys
    ensures exists id :: id in ids && forall other :: other in ids ==> !ComesBefore(t[other], t[id], now)
    decreases |ids|
  {
    var x :| x in ids;
    var rest := ids - {x};
    if rest == {} {
      assert ids == {x} + rest;
      assert forall other :: other in ids ==> other == x;
      assert x in ids && forall other :: other in ids ==> !ComesBefore(t[other], t[x], now);
    } else {
      NextExists(t, rest, now);
      var m :| m in rest && forall other :: other in rest ==> !ComesBefore(t[other], t[m], now);
      var best := if ComesBefore(t[x], t[m], now) then x else m;
      assert forall other :: other in ids ==> other == x || other in rest;
      assert best in ids && forall other :: other in ids ==> !ComesBefore(t[other], t[best], now);
    }
  }

  /**
   Waiting counts: a claimable task that is a hundred minutes old goes before any newly
   created one whose priority is less than a hundred points better.
   */
  lemma OldTasksComeFirst(a: Row, b: Row, now: Time)
    requires now - a.createdAt >= 6000.0 && b.createdAt == now && a.priority < b.priority + 100
    ensures ComesBefore(a, b, now)
  {
    assert (now - a.createdAt) / 60.0 >= 100.0;
  }

  predicate Holds(r: Row, worker: string, generation: nat) {
    r.worker == Some(worker) && r.generation == generation && (r.status == Leased || r.status == Running)
  }

  function NewRow(key: string, values: seq<int>, priority: int, maxAttempts: int, now: Time): Row {
    Row(key, values, priority, now, Pending, None, None, None, 0, if maxAttempts < 1 then 1 else maxAttempts, 0, None)
  }

  function ClaimedRow(r: Row, worker: string, expiresAt: Time): Row {
    r.(status := Leased, worker := Some(worker), expiresAt := Some(expiresAt),
       attempt := r.attempt + 1, generation := r.generation + 1)
  }

  predicate Expired(r: Row, now: Time) {
    (r.status == Leased || r.status == Running) && r.expiresAt.Some? && r.expiresAt.value <= now
  }

  /** `recover_expired` on one row: stuck rows die, expired leases are recovered or die. */
  function RecoveredRow(r: Row, now: Time): Row {
    if r.status == Recovered && r.attempt >= r.maxAttempts then r.(status := DeadLetter)
    else if Expired(r, now) then
      r.(status := if r.attempt < r.maxAttempts then Recovered else DeadLetter, worker := None, expiresAt := None)
    else r
  }

  function SweptRow(r: Row): Row {
    if r.status == Recovered && r.attempt >= r.maxAttempts then r.(status := DeadLetter) else r
  }

  lemma RecoveredInSteps(r: Row, reclaimable: bool, exhausted: bool, now: Time)
    requires var s := SweptRow(r);
             && reclaimable == (Expired(s, now) && s.attempt < s.maxAttempts)
             && exhausted == (Expired(s, now) && s.attempt >= s.maxAttempts)
    ensures RecoveredRow(r, now) ==
            if reclaimable then SweptRow(r).(status := Recovered, worker := None, expiresAt := None)
            else if exhausted then SweptRow(r).(status := DeadLetter, worker := None, expiresAt := None)
            else SweptRow(r)
  {
  }

  /** What `recover_expired` makes of the table, row by row. */
  function RecoverExpired(t: Table, now: Time): Table {
    map id | id in t :: RecoveredRow(t[id], now)
  }

  class AutonomousTaskStore {
    var tasks: Table

    constructor ()
      ensures tasks == map[]
    {
      tasks := map[];
    }

    /** A known idempotency key returns the task that has it. */
    method Enqueue(key: string, values: seq<int>, priority: int, maxAttempts: int, now: Time, freshId: string)
      returns (id: string)
      requires freshId !in tasks
      modifies this
      ensures id in tasks && tasks[id].key == key
      ensures (exists k :: k in old(tasks) && old(tasks)[k].key == key) ==> tasks == old(tasks)
      ensures (forall k :: k in old(tasks) ==> old(tasks)[k].key != key) ==>
                id == freshId
                && tasks == old(tasks)[id := NewRow(key, values, priority, maxAttempts, now)]
                && tasks[id].values == values && tasks[id].priority == priority && tasks[id].createdAt == now
                && tasks[id].status == Pending && tasks[id].attempt == 0 && tasks[id].generation == 0
                && tasks[id].maxAttempts >= 1 && (maxAttempts >= 1 ==> tasks[id].maxAttempts == maxAttempts)
    {
      var existing := set k | k in tasks && tasks[k].key == key;
      if existing != {} {
        id :| id in existing;
        return;
      }
      assert forall k :: k in tasks && tasks[k].key == key ==> k in existing;
      id := freshId;
      var attempts := if maxAttempts < 1 then 1 else maxAttempts;
      tasks := tasks[id := Row(key, values, priority, now, Pending, None, None, None, 0, attempts, 0, None)];
    }

    method Claim(worker: string, now: Time, expiresAt: Time) returns (claimed: Option<string>)
      modifies this
      ensures claimed.None? ==> tasks == old(tasks) && forall id :: id in tasks ==> !Claimable(tasks[id], now)
      ensures claimed.Some? ==>
                var id := claimed.value;
                IsNext(old(tasks), id, now)
                && tasks == old(tasks)[id := ClaimedRow(old(tasks)[id], worker, expiresAt)]
      ensures claimed.Some? ==>
                var was, row := old(tasks)[claimed.value], tasks[claimed.value];
                && row.status == Leased && row.worker == Some(worker) && row.expiresAt == Some(expiresAt)
                && row.attempt == was.attempt + 1 && row.generation == was.generation + 1
                && row.key == was.key && row.values == was.values && row.maxAttempts == was.maxAttempts
                && row.priority == was.priority && row.createdAt == was.createdAt
    {
      var candidates := set id | id in tasks && Claimable(tasks[id], now);
      if candidates == {} {
        assert forall id :: id in tasks && Claimable(tasks[id], now) ==> id in candidates;
        return None;
      }
      NextExists(tasks, candidates, now);
      var id :| id in candidates && forall other :: other in candidates ==> !ComesBefore(tasks[other], tasks[id], now);
      assert forall other :: other in tasks && Claimable(tasks[other], now) ==> other in candidates;
      tasks := tasks[id := ClaimedRow(tasks[id], worker, expiresAt)];
      claimed := Some(id);
    }

    method Start(id: string, worker: string, generation: nat) returns (ok: bool)
      modifies this
      ensures ok == (id in old(tasks) && Holds(old(tasks)[id], worker, generation))
      ensures tasks == if ok then old(tasks)[id := old(tasks)[id].(status := Running)] else old(tasks)
    {
      ok := id in tasks && Holds(tasks[id], worker, generation);
      if ok {
        tasks := tasks[id := tasks[id].(status := Running)];
      }
    }

    /** `isFile` says whether the result reference names a file that exists. */
    method Complete(id: string, worker: string, generation: nat, resultRef: string, isFile: bool) returns (ok: bool)
      modifies this
      ensures ok == (isFile && id in old(tasks) && Holds(old(tasks)[id], worker, generation))
      ensures tasks == if ok
                       then old(tasks)[id := old(tasks)[id].(status := Completed, resultRef := Some(resultRef),
                                                             expiresAt := None)]
                       else old(tasks)
    {
      ok := isFile && id in tasks && Holds(tasks[id], worker, generation);
      if ok {
        tasks := tasks[id := tasks[id].(status := Completed, resultRef := Some(resultRef), expiresAt := None)];
      }
    }

    /** A sweep of stuck rows, a SELECT of expired leases, and one UPDATE for each half of them. */
    method Recover(now: Time)
      modifies this
      ensures tasks == RecoverExpired(old(tasks), now)
    {
      Sweep();
      var rows := set id | id in tasks && Expired(tasks[id], now);
      var reclaimable := set id | id in rows && tasks[id].attempt < tasks[id].maxAttempts;
      var exhausted := set id | id in rows && tasks[id].attempt >= tasks[id].maxAttempts;
      Release(reclaimable, Recovered);
      Release(exhausted, DeadLetter);
      forall id | id in tasks ensures tasks[id] == RecoveredRow(old(tasks)[id], now) {
        RecoveredInSteps(old(tasks)[id], id in reclaimable, id in exhausted, now);
      }
      assert tasks == RecoverExpired(old(tasks), now);
    }

    /** The rows that an earlier recovery has left without attempts. */
    method Sweep()
      modifies this
      ensures tasks.Keys == old(tasks).Keys
      ensures forall id :: id in tasks ==> tasks[id] == SweptRow(old(tasks)[id])
    {
      tasks := map id | id in tasks :: SweptRow(tasks[id]);
    }

    method Release(ids: set<string>, status: Status)
      modifies this
      ensures tasks.Keys == old(tasks).Keys
      ensures forall id :: id in tasks ==>
                tasks[id] == if id in ids then old(tasks)[id].(status := status, worker := None, expiresAt := None)
                             else old(tasks)[id]
    {
      tasks := map id | id in tasks ::
        if id in ids then tasks[id].(status := status, worker := None, expiresAt := None) else tasks[id];
    }
  }

  // ---------------------------------------------------------------- refinement

  /** The view that the contract speaks about. */
  function View(t: Table): LC.Store {
    map id | id in t ::
      LC.Task(t[id].key, t[id].values, t[id].worker, t[id].generation, t[id].attempt, t[id].status == Completed)
  }

  ghost predicate DistinctKeys(t: Table) {
    forall a, b :: a in t && b in t && a != b ==> t[a].key != t[b].key
  }

  lemma EnqueueRefines(t: Table, id: string, row: Row)
    requires DistinctKeys(t) && id !in t && forall k :: k in t ==> t[k].key != row.key
    requires row == NewRow(row.key, row.values, row.priority, row.maxAttempts, row.createdAt)
    ensures LC.Enqueues(View(t), View(t[id := row]), id, row.key, row.values)
    ensures DistinctKeys(t[id := row])
  {
    assert View(t[id := row]) == View(t)[id := LC.Task(row.key, row.values, None, 0, 0, false)];
  }

  lemma ClaimRefines(t: Table, id: string, worker: string, now: Time, expiresAt: Time)
    requires id in t && Claimable(t[id], now)
    ensures LC.Claims(View(t), View(t[id := ClaimedRow(t[id], worker, expiresAt)]), id, worker)
  {
  }

  lemma StartRefines(t: Table, id: string, worker: string, generation: nat)
    requires id in t
    ensures var ok := Holds(t[id], worker, generation);
            var t' := if ok then t[id := t[id].(status := Running)] else t;
            LC.Starts(View(t), View(t'), id, worker, generation, ok)
  {
    var t' := if Holds(t[id], worker, generation) then t[id := t[id].(status := Running)] else t;
    assert View(t') == View(t);
  }

  lemma CompleteRefines(t: Table, id: string, worker: string, generation: nat, resultRef: string)
    requires id in t && Holds(t[id], worker, generation)
    ensures var t' := t[id := t[id].(status := Completed, resultRef := Some(resultRef), expiresAt := None)];
            LC.Completes(View(t), View(t'), id, worker, generation, true)
  {
    var t' := t[id := t[id].(status := Completed, resultRef := Some(resultRef), expiresAt := None)];
    assert View(t') == View(t)[id := View(t)[id].(completed := true)];
  }

  lemma RecoverRefines(t: Table, now: Time)
    ensures LC.Recovers(View(t), View(RecoverExpired(t, now)))
  {
  }

  /**
   Recovery by cases: an expired lease is released, to be claimed again while attempts remain;
   a recovered task without attempts dies; every other row stays.
   */
  lemma RecoveryByCases(t: Table, id: string, now: Time)
    requires id in t
    ensures id in RecoverExpired(t, now)
    ensures var was, row := t[id], RecoverExpired(t, now)[id];
            if (was.status == Leased || was.status == Running) && was.expiresAt.Some? && was.expiresAt.value <= now then
              && row.status == (if was.attempt < was.maxAttempts then Recovered else DeadLetter)
              && row.worker == None && row.expiresAt == None && row.generation == was.generation
              && row.attempt == was.attempt && row.key == was.key && row.values == was.values
            else if was.status == Recovered && was.attempt >= was.maxAttempts then
              row == was.(status := DeadLetter)
            else row == was
  {
  }

  /**
   A task that is not claimable, once its lease has expired, is claimable after recovery
   exactly when attempts remain; otherwise it is dead and stays so.
   */
  lemma ExpiredLeaseIsClaimableAgain(t: Table, id: string, now: Time)
    requires id in t && Expired(t[id], now)
    ensures Claimable(RecoverExpired(t, now)[id], now) <==> t[id].attempt < t[id].maxAttempts
    ensures t[id].attempt >= t[id].maxAttempts ==>
              RecoverExpired(t, now)[id].status == DeadLetter
              && forall later: Time :: RecoverExpired(RecoverExpired(t, now), later)[id] == RecoverExpired(t, now)[id]
  {
  }
}
