/**
 The `worker` process of scripts/run_level8_task_recovery.py over the task store: its code,
 section by section, takes exactly the steps of `TaskRecovery`, in their order.
 */
module RecoveryWorker {
  import opened Options
  import opened TaskRecovery
  import Leases = TaskLeases

  type Time = real

  /** A stretch of a run. */
  ghost predicate Path(states: seq<State>, turns: seq<Turn>) {
    && |states| == |turns| + 1
    && forall i :: 0 <= i < |turns| ==> Step(states[i], turns[i].worker, turns[i].action, states[i + 1])
  }

  lemma PathStep(states: seq<State>, turns: seq<Turn>, w: string, a: Action, s': State)
    requires Path(states, turns) && Step(states[|turns|], w, a, s')
    ensures Path(states + [s'], turns + [Turn(w, a)])
  {
    var longer, more := states + [s'], turns + [Turn(w, a)];
    forall i | 0 <= i < |more| ensures Step(longer[i], more[i].worker, more[i].action, longer[i + 1]) {
      if i < |turns| {
        assert longer[i] == states[i] && longer[i + 1] == states[i + 1] && more[i] == turns[i];
      }
    }
  }

  /** What is proved of runs holds after any path that continues one. */
  lemma PathContinuesRun(states: seq<State>, turns: seq<Turn>, path: seq<State>, more: seq<Turn>)
    requires IsRun(states, turns) && Path(path, more) && path[0] == states[|turns|]
    ensures IsRun(states + path[1..], turns + more)
    ensures (states + path[1..])[|turns + more|] == path[|more|]
  {
    var all, allTurns := states + path[1..], turns + more;
    assert all[0] == states[0];
    forall i | 0 <= i < |allTurns|
      ensures Step(all[i], allTurns[i].worker, allTurns[i].action, all[i + 1])
    {
      if i < |turns| {
        assert all[i] == states[i] && all[i + 1] == states[i + 1];
      } else {
        var k := i - |turns|;
        assert all[i] == path[k] && all[i + 1] == path[k + 1] && allTurns[i] == more[k];
      }
    }
  }

  // ---------------------------------------------------------------- what an undisturbed process does

  type Table = Leases.Table

  ghost predicate NothingClaimable(t: Table, now: Time) {
    forall id :: id in t ==> !Leases.Claimable(t[id], now)
  }

  /** The tasks before poll `n` and after its recovery, if no earlier poll has claimed any. */
  function BeforePoll(t: Table, clock: nat -> Time, n: nat): Table {
    if n == 0 then t else Leases.RecoverExpired(BeforePoll(t, clock, n - 1), clock(n - 1))
  }

  function AfterPoll(t: Table, clock: nat -> Time, n: nat): Table {
    Leases.RecoverExpired(BeforePoll(t, clock, n), clock(n))
  }

  ghost predicate AllPollsFail(t: Table, clock: nat -> Time, polls: nat) {
    forall n: nat :: n < polls ==> NothingClaimable(AfterPoll(t, clock, n), clock(n))
  }

  /** Poll `k` is the first that finds something to claim. */
  ghost predicate IsFirstPoll(t: Table, clock: nat -> Time, k: nat) {
    !NothingClaimable(AfterPoll(t, clock, k), clock(k)) && AllPollsFail(t, clock, k)
  }

  lemma NextPoll(t: Table, clock: nat -> Time, n: nat)
    ensures BeforePoll(t, clock, n + 1) == AfterPoll(t, clock, n)
    ensures AllPollsFail(t, clock, n) ==>
              if NothingClaimable(AfterPoll(t, clock, n), clock(n)) then AllPollsFail(t, clock, n + 1)
              else IsFirstPoll(t, clock, n)
  {
  }

  /** The scenario of the script: a killed worker's task is there for the next poll. */
  lemma LeftTaskIsClaimable(t: Table, id: string, now: Time)
    requires id in t && (t[id].status == Leases.Leased || t[id].status == Leases.Running)
    requires t[id].expiresAt.Some? && t[id].expiresAt.value <= now && t[id].attempt < t[id].maxAttempts
    ensures !NothingClaimable(Leases.RecoverExpired(t, now), now)
  {
    Leases.ExpiredLeaseIsClaimableAgain(t, id, now);
  }

  /** The other tasks are as they were. */
  ghost predicate OthersSame(t: Table, t': Table, id: string) {
    id in t && t'.Keys == t.Keys && forall other :: other in t && other != id ==> t'[other] == t[other]
  }

  /** The task that comes first is leased to `w`, and `copy` is what the worker holds of it. */
  ghost predicate IsClaimed(t: Table, t': Table, copy: Copy, w: string, now: Time) {
    var id := copy.taskId;
    && Leases.IsNext(t, id, now) && OthersSame(t, t', id)
    && t'[id].status == Leases.Leased && t'[id].worker == Some(w)
    && t'[id].generation == t[id].generation + 1 && t'[id].attempt == t[id].attempt + 1
    && t'[id].key == t[id].key && t'[id].values == t[id].values
    && copy == Copy(id, t[id].generation + 1, t[id].attempt + 1, t[id].key, t[id].values)
  }

  ghost predicate OnlyStatus(t: Table, t': Table, id: string, status: Option<Leases.Status>) {
    OthersSame(t, t', id) && t'[id] == if status.Some? then t[id].(status := status.value) else t[id]
  }

  ghost predicate IsCompleted(t: Table, t': Table, id: string) {
    && OthersSame(t, t', id)
    && t'[id].status == Leases.Completed && t'[id].resultRef == Some("receipt.json")
    && t'[id].worker == t[id].worker && t'[id].generation == t[id].generation && t'[id].attempt == t[id].attempt
    && t'[id].key == t[id].key && t'[id].values == t[id].values
  }

  /** From the table of the successful poll to the end: one claim, and completed. */
  ghost predicate IsTaskDone(t: Table, t': Table, id: string, w: string) {
    && OthersSame(t, t', id)
    && t'[id].status == Leases.Completed && t'[id].resultRef == Some("receipt.json")
    && t'[id].worker == Some(w) && t'[id].generation == t[id].generation + 1 && t'[id].attempt == t[id].attempt + 1
    && t'[id].key == t[id].key && t'[id].values == t[id].values
  }

  /** The effect is there, earlier ones are untouched, and no second row of its key appears. */
  ghost predicate IsEffectStored(before: seq<EffectRow>, after: seq<EffectRow>, copy: Copy) {
    && HasEffect(after, copy.key)
    && after == (if HasEffect(before, copy.key) then before
                 else before + [EffectRow(copy.key, copy.taskId, Total(copy.values))])
  }

  ghost predicate AreWritten(copy: Copy, w: string, effects: seq<EffectRow>, effects': seq<EffectRow>,
                             checkpoints: map<nat, Checkpoint>, checkpoints': map<nat, Checkpoint>,
                             receipt: Option<Receipt>)
  {
    && IsEffectStored(effects, effects', copy)
    && checkpoints' == checkpoints[copy.attempt := Checkpoint(w, copy.taskId, copy.generation, copy.key)]
    && receipt == Some(Receipt(copy.taskId, w, copy.generation, copy.key, Total(copy.values)))
  }

  /** The same, from the row that the successful poll found. */
  ghost predicate IsWritten(row: Leases.Row, id: string, w: string, effects: seq<EffectRow>, effects': seq<EffectRow>,
                            checkpoints: map<nat, Checkpoint>, checkpoints': map<nat, Checkpoint>,
                            receipt: Option<Receipt>)
  {
    AreWritten(Copy(id, row.generation + 1, row.attempt + 1, row.key, row.values), w,
               effects, effects', checkpoints, checkpoints', receipt)
  }

  class Recovery {
    const store: Leases.AutonomousTaskStore
    var effects: seq<EffectRow>
    var checkpoints: map<nat, Checkpoint>
    var receipt: Option<Receipt>

    // How far every process has come, and the completions that were granted.
    ghost var workers: map<string, Worker>
    ghost var completions: seq<Completion>

    constructor ()
      ensures Init(Now())
    {
      store := new Leases.AutonomousTaskStore();
      effects, checkpoints, receipt := [], map[], None;
      workers, completions := map[], [];
      new;
      assert Leases.View(store.tasks) == map[];
    }

    ghost function Now(): State
      reads this, store
    {
      State(Leases.View(store.tasks), workers, effects, checkpoints, receipt, completions)
    }

    method RecoverTasks(w: string, now: Time)
      modifies store
      ensures Step(old(Now()), w, Recover, Now())
      ensures store.tasks == Leases.RecoverExpired(old(store.tasks), now)
    {
      Leases.RecoverRefines(store.tasks, now);
      store.Recover(now);
    }

    method ClaimTask(w: string, now: Time, expiresAt: Time) returns (claimed: Option<Copy>)
      requires w in workers && workers[w] == Idle
      modifies this`workers, store
      ensures claimed.None? ==> Now() == old(Now()) && store.tasks == old(store.tasks)
                                && NothingClaimable(store.tasks, now)
      ensures claimed.Some? ==> IsClaimed(old(store.tasks), store.tasks, claimed.value, w, now)
      ensures claimed.Some? ==> Step(old(Now()), w, Claim(claimed.value.taskId), Now())
                                && w in workers && workers[w] == Claimed(claimed.value)
                                && claimed.value.taskId in store.tasks
    {
      ghost var before := store.tasks;
      var id := store.Claim(w, now, expiresAt);
      if id.None? {
        return None;
      }
      Leases.ClaimRefines(before, id.value, w, now, expiresAt);
      var row := store.tasks[id.value];
      var copy := Copy(id.value, row.generation, row.attempt, row.key, row.values);
      assert IsClaimed(before, store.tasks, copy, w, now);
      workers := workers[w := Claimed(copy)];
      claimed := Some(copy);
    }

    method StartTask(w: string, copy: Copy) returns (ok: bool)
      requires w in workers && workers[w] == Claimed(copy) && copy.taskId in store.tasks
      modifies this`workers, store
      ensures Step(old(Now()), w, Start(ok), Now())
      ensures w in workers && workers[w] == (if ok then Started(copy) else Dead)
      ensures copy.taskId in store.tasks
      ensures ok == Leases.Holds(old(store.tasks)[copy.taskId], w, copy.generation)
      ensures OnlyStatus(old(store.tasks), store.tasks, copy.taskId, if ok then Some(Leases.Running) else None)
    {
      Leases.StartRefines(store.tasks, copy.taskId, w, copy.generation);
      ok := store.Start(copy.taskId, w, copy.generation);
      workers := workers[w := if ok then Started(copy) else Dead];
    }

    method Commit(w: string, copy: Copy)
      requires w in workers && workers[w] == Started(copy)
      modifies this`effects, this`workers
      ensures Step(old(Now()), w, CommitEffect, Now())
      ensures w in workers && workers[w] == EffectDone(copy)
      ensures IsEffectStored(old(effects), effects, copy)
    {
      effects := InsertOrIgnore(effects, EffectRow(copy.key, copy.taskId, Total(copy.values)));
      workers := workers[w := EffectDone(copy)];
    }

    method Check(w: string, copy: Copy)
      requires w in workers && workers[w] == EffectDone(copy)
      modifies this`checkpoints, this`workers
      ensures Step(old(Now()), w, WriteCheckpoint, Now())
      ensures w in workers && workers[w] == Checkpointed(copy)
      ensures checkpoints == old(checkpoints)[copy.attempt := Checkpoint(w, copy.taskId, copy.generation, copy.key)]
    {
      checkpoints := checkpoints[copy.attempt := Checkpoint(w, copy.taskId, copy.generation, copy.key)];
      workers := workers[w := Checkpointed(copy)];
    }

    method Sign(w: string, copy: Copy)
      requires w in workers && workers[w] == Checkpointed(copy)
      modifies this`receipt, this`workers
      ensures Step(old(Now()), w, WriteReceipt, Now())
      ensures w in workers && workers[w] == Receipted(copy)
      ensures receipt == Some(Receipt(copy.taskId, w, copy.generation, copy.key, Total(copy.values)))
    {
      receipt := Some(Receipt(copy.taskId, w, copy.generation, copy.key, Total(copy.values)));
      workers := workers[w := Receipted(copy)];
    }

    method CompleteTask(w: string, copy: Copy) returns (ok: bool)
      requires w in workers && workers[w] == Receipted(copy)
      modifies this`workers, this`completions, store
      ensures Step(old(Now()), w, Complete(ok), Now())
      ensures w in workers && workers[w] == (if ok then Finished(copy) else Dead)
      ensures ok == (receipt.Some? && copy.taskId in old(store.tasks)
                     && Leases.Holds(old(store.tasks)[copy.taskId], w, copy.generation))
      ensures if ok then IsCompleted(old(store.tasks), store.tasks, copy.taskId) else store.tasks == old(store.tasks)
    {
      ghost var before := store.tasks;
      ok := store.Complete(copy.taskId, w, copy.generation, "receipt.json", receipt.Some?);
      if ok {
        Leases.CompleteRefines(before, copy.taskId, w, copy.generation, "receipt.json");
        completions := completions + [Completion(copy.taskId, w, copy.generation)];
      }
      workers := workers[w := if ok then Finished(copy) else Dead];
    }

    /**
     The whole process, left alone: it polls for a task until its deadline, and then goes
     through its sections.  It ends with code zero exactly when some poll finds a claimable
     task after recovering, and then the first such poll's task is done.
     */
    method Work(w: string, polls: nat, clock: nat -> Time, expiresAt: nat -> Time)
      returns (exit: bool, ghost path: seq<State>, ghost turns: seq<Turn>, ghost k: nat, ghost id: string)
      requires w !in workers
      modifies this, store
      ensures Path(path, turns) && path[0] == old(Now()) && path[|turns|] == Now()
      ensures w in workers && (if exit then workers[w].Exited? else workers[w] == Dead)
      ensures exit <==> exists n: nat :: n < polls && !NothingClaimable(AfterPoll(old(store.tasks), clock, n), clock(n))
      ensures polls > 0 && !NothingClaimable(Leases.RecoverExpired(old(store.tasks), clock(0)), clock(0)) ==>
                exit && k == 0
      ensures exit ==> k < polls && IsFirstPoll(old(store.tasks), clock, k)
                       && Leases.IsNext(AfterPoll(old(store.tasks), clock, k), id, clock(k))
                       && IsTaskDone(AfterPoll(old(store.tasks), clock, k), store.tasks, id, w)
      ensures exit ==> var row := AfterPoll(old(store.tasks), clock, k)[id];
                       IsWritten(row, id, w, old(effects), effects, old(checkpoints), checkpoints, receipt)
      ensures !exit ==> effects == old(effects) && checkpoints == old(checkpoints) && receipt == old(receipt)
    {
      path, turns := [Now()], [];
      workers := workers[w := Idle];
      PathStep(path, turns, w, Spawn, Now());
      path, turns := path + [Now()], turns + [Turn(w, Spawn)];
      var claimed;
      claimed, path, turns, k := AwaitTask(w, polls, clock, expiresAt, path, turns);
      id := "";
      if claimed.None? {
        workers := workers[w := Dead];
        PathStep(path, turns, w, Crash, Now());
        return false, path + [Now()], turns + [Turn(w, Crash)], k, id;
      }
      id := claimed.value.taskId;
      exit, path, turns := WorkOn(w, claimed.value, path, turns);
    }

    method AwaitTask(w: string, polls: nat, clock: nat -> Time, expiresAt: nat -> Time,
                     ghost before: seq<State>, ghost done: seq<Turn>)
      returns (claimed: Option<Copy>, ghost path: seq<State>, ghost turns: seq<Turn>, ghost k: nat)
      requires w in workers && workers[w] == Idle
      requires Path(before, done) && before[|done|] == Now()
      modifies this`workers, store
      ensures Path(path, turns) && path[0] == before[0] && path[|turns|] == Now()
      ensures w in workers && workers[w] == (if claimed.None? then Idle else Claimed(claimed.value))
      ensures claimed.Some? ==> claimed.value.taskId in store.tasks
      ensures claimed.None? ==> AllPollsFail(old(store.tasks), clock, polls)
      ensures claimed.Some? ==> k < polls && IsFirstPoll(old(store.tasks), clock, k)
      ensures claimed.Some? ==> IsClaimed(AfterPoll(old(store.tasks), clock, k), store.tasks, claimed.value, w, clock(k))
    {
      path, turns, claimed, k := before, done, None, 0;
      var i := 0;
      while claimed.None? && i < polls
        invariant i <= polls
        invariant Path(path, turns) && path[0] == before[0] && path[|turns|] == Now()
        invariant w in workers && workers[w] == (if claimed.None? then Idle else Claimed(claimed.value))
        invariant claimed.Some? ==> claimed.value.taskId in store.tasks
        invariant claimed.None? ==> store.tasks == BeforePoll(old(store.tasks), clock, i)
                                    && AllPollsFail(old(store.tasks), clock, i)
        invariant claimed.Some? ==> k < i && IsFirstPoll(old(store.tasks), clock, k)
        invariant claimed.Some? ==>
                    IsClaimed(AfterPoll(old(store.tasks), clock, k), store.tasks, claimed.value, w, clock(k))
      {
        claimed, path, turns := Poll(w, clock(i), expiresAt(i), path, turns);
        k := i;
        NextPoll(old(store.tasks), clock, i);
        i := i + 1;
      }
    }

    /** Recover, then claim. */
    method Poll(w: string, now: Time, expiresAt: Time, ghost before: seq<State>, ghost done: seq<Turn>)
      returns (claimed: Option<Copy>, ghost path: seq<State>, ghost turns: seq<Turn>)
      requires w in workers && workers[w] == Idle
      requires Path(before, done) && before[|done|] == Now()
      modifies this`workers, store
      ensures Path(path, turns) && path[0] == before[0] && path[|turns|] == Now()
      ensures w in workers && workers[w] == (if claimed.None? then Idle else Claimed(claimed.value))
      ensures claimed.Some? ==> claimed.value.taskId in store.tasks
      ensures var t := Leases.RecoverExpired(old(store.tasks), now);
              if claimed.None? then store.tasks == t && NothingClaimable(t, now)
              else IsClaimed(t, store.tasks, claimed.value, w, now)
    {
      RecoverTasks(w, now);
      PathStep(before, done, w, Recover, Now());
      path, turns := before + [Now()], done + [Turn(w, Recover)];
      claimed := ClaimTask(w, now, expiresAt);
      if claimed.Some? {
        PathStep(path, turns, w, Claim(claimed.value.taskId), Now());
        path, turns := path + [Now()], turns + [Turn(w, Claim(claimed.value.taskId))];
      }
    }

    /** From the claim to the end, over the path so far. */
    method WorkOn(w: string, copy: Copy, ghost before: seq<State>, ghost done: seq<Turn>)
      returns (exit: bool, ghost path: seq<State>, ghost turns: seq<Turn>)
      requires w in workers && workers[w] == Claimed(copy) && copy.taskId in store.tasks
      requires Path(before, done) && before[|done|] == Now()
      modifies this, store
      ensures Path(path, turns) && path[0] == before[0] && path[|turns|] == Now()
      ensures w in workers && (if exit then workers[w].Exited? else workers[w] == Dead)
      ensures exit == Leases.Holds(old(store.tasks)[copy.taskId], w, copy.generation)
      ensures exit ==> IsCompleted(old(store.tasks), store.tasks, copy.taskId)
      ensures exit ==> AreWritten(copy, w, old(effects), effects, old(checkpoints), checkpoints, receipt)
    {
      exit := StartTask(w, copy);
      PathStep(before, done, w, Start(exit), Now());
      path, turns := before + [Now()], done + [Turn(w, Start(exit))];
      if !exit {
        return;
      }
      path, turns := WriteAll(w, copy, path, turns);
      exit, path, turns := End(w, copy, path, turns);
    }

    /** The effect, the checkpoint and the receipt, in this order. */
    method WriteAll(w: string, copy: Copy, ghost before: seq<State>, ghost done: seq<Turn>)
      returns (ghost path: seq<State>, ghost turns: seq<Turn>)
      requires w in workers && workers[w] == Started(copy)
      requires Path(before, done) && before[|done|] == Now()
      modifies this`effects, this`checkpoints, this`receipt, this`workers
      ensures Path(path, turns) && path[0] == before[0] && path[|turns|] == Now()
      ensures w in workers && workers[w] == Receipted(copy)
      ensures AreWritten(copy, w, old(effects), effects, old(checkpoints), checkpoints, receipt)
    {
      Commit(w, copy);
      PathStep(before, done, w, CommitEffect, Now());
      path, turns := before + [Now()], done + [Turn(w, CommitEffect)];
      Check(w, copy);
      PathStep(path, turns, w, WriteCheckpoint, Now());
      path, turns := path + [Now()], turns + [Turn(w, WriteCheckpoint)];
      Sign(w, copy);
      PathStep(path, turns, w, WriteReceipt, Now());
      path, turns := path + [Now()], turns + [Turn(w, WriteReceipt)];
    }

    /** The completion, and the end of the process. */
    method End(w: string, copy: Copy, ghost before: seq<State>, ghost done: seq<Turn>)
      returns (exit: bool, ghost path: seq<State>, ghost turns: seq<Turn>)
      requires w in workers && workers[w] == Receipted(copy) && receipt.Some? && copy.taskId in store.tasks
      requires Path(before, done) && before[|done|] == Now()
      modifies this`workers, this`completions, store
      ensures Path(path, turns) && path[0] == before[0] && path[|turns|] == Now()
      ensures w in workers && (if exit then workers[w].Exited? else workers[w] == Dead)
      ensures exit == Leases.Holds(old(store.tasks)[copy.taskId], w, copy.generation)
      ensures exit ==> IsCompleted(old(store.tasks), store.tasks, copy.taskId)
    {
      exit := CompleteTask(w, copy);
      PathStep(before, done, w, Complete(exit), Now());
      path, turns := before + [Now()], done + [Turn(w, Complete(exit))];
      if exit {
        workers := workers[w := Exited(copy)];
        PathStep(path, turns, w, Exit, Now());
        path, turns := path + [Now()], turns + [Turn(w, Exit)];
      }
    }
  }
}
