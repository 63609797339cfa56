/**
 Whose receipt is left on disk by scripts/run_level8_task_recovery.py: every worker writes the
 same `receipt.json`, and the write does not ask whether the lease still holds.
 */
module TaskReceipts {
  import opened Options
  import opened LeaseContract
  import opened TaskRecovery

  /** A lease that was granted to `w` is over, or still its own, or has lost its owner. */
  ghost predicate LeaseIsOf(st: Store, id: string, w: string, generation: nat) {
    && id in st && generation <= st[id].generation
    && (generation == st[id].generation ==> st[id].owner == None || st[id].owner == Some(w))
  }

  ghost predicate LeasesInv(s: State) {
    && (forall w :: w in s.workers && HasCopy(s.workers[w]) ==> CopyLeaseInv(s.store, w, s.workers[w].copy))
    && (s.receipt.Some? ==> ReceiptInv(s, s.receipt.value))
    && (forall c :: c in s.completions ==> CompleterInv(s, c))
  }

  ghost predicate CopyLeaseInv(st: Store, w: string, c: Copy) {
    LeaseIsOf(st, c.taskId, w, c.generation)
  }

  ghost predicate ReceiptInv(s: State, r: Receipt) {
    && LeaseIsOf(s.store, r.taskId, r.actor, r.generation)
    && r.actor in s.workers && !s.workers[r.actor].Idle?
    && (HasCopy(s.workers[r.actor]) ==>
          s.workers[r.actor].copy.taskId == r.taskId && s.workers[r.actor].copy.generation == r.generation)
  }

  /** A worker whose completion was granted is past it, and its receipt is of the same lease. */
  ghost predicate CompleterInv(s: State, c: Completion) {
    && c.worker in s.workers
    && (s.workers[c.worker].Finished? || s.workers[c.worker].Exited? || s.workers[c.worker].Dead?)
    && (s.receipt.Some? && s.receipt.value.actor == c.worker ==>
          s.receipt.value.taskId == c.taskId && s.receipt.value.generation == c.generation)
  }

  lemma LeasesStoreStep(s: State, w: string, a: Action, s': State)
    requires LeasesInv(s) && Step(s, w, a, s') && (a.Enqueue? || a.Recover? || a.Start?)
    ensures LeasesInv(s')
  {
    LeasesStay(s, w, a, s');
    forall c | c in s'.completions ensures CompleterInv(s', c) {
      assert CompleterInv(s, c);
    }
    forall v | v in s'.workers && HasCopy(s'.workers[v]) ensures CopyLeaseInv(s'.store, v, s'.workers[v].copy) {
      assert v in s.workers && s'.workers[v].copy == s.workers[v].copy && CopyLeaseInv(s.store, v, s.workers[v].copy);
    }
  }

  lemma LeasesStay(s: State, w: string, a: Action, s': State)
    requires Step(s, w, a, s') && (a.Enqueue? || a.Recover? || a.Start?)
    ensures forall id, v, generation ::
      LeaseIsOf(s.store, id, v, generation) ==> LeaseIsOf(s'.store, id, v, generation)
  {
  }

  lemma LeasesClaimStep(s: State, w: string, id: string, s': State)
    requires LeasesInv(s) && Step(s, w, Claim(id), s')
    ensures LeasesInv(s')
  {
    assert forall c :: c in s.completions ==> c.worker != w;
    forall v | v in s'.workers && HasCopy(s'.workers[v])
      ensures LeaseIsOf(s'.store, s'.workers[v].copy.taskId, v, s'.workers[v].copy.generation)
    {
      if v != w {
        LeaseStaysOnClaim(s, w, id, s', s.workers[v].copy.taskId, v, s.workers[v].copy.generation);
      }
    }
    if s.receipt.Some? {
      var r := s.receipt.value;
      LeaseStaysOnClaim(s, w, id, s', r.taskId, r.actor, r.generation);
    }
  }

  lemma LeaseStaysOnClaim(s: State, w: string, id: string, s': State, task: string, v: string, generation: nat)
    requires Step(s, w, Claim(id), s') && LeaseIsOf(s.store, task, v, generation)
    ensures LeaseIsOf(s'.store, task, v, generation)
  {
  }

  lemma LeasesWorkerStep(s: State, w: string, a: Action, s': State)
    requires LeasesInv(s) && Step(s, w, a, s')
    requires a.Spawn? || a.Exit? || a.Crash? || a.CommitEffect? || a.WriteCheckpoint? || a.WriteReceipt?
    ensures LeasesInv(s')
  {
    assert s'.store == s.store && s'.completions == s.completions;
    forall c | c in s'.completions ensures CompleterInv(s', c) {
      assert CompleterInv(s, c);
    }
  }

  lemma LeasesCompleteStep(s: State, w: string, ok: bool, s': State)
    requires LeasesInv(s) && Step(s, w, Complete(ok), s')
    ensures LeasesInv(s')
  {
    var c := s.workers[w].copy;
    assert forall x :: x in s'.completions ==> x in s.completions || (ok && x == Completion(c.taskId, w, c.generation));
    forall x | x in s'.completions ensures CompleterInv(s', x) {
      assert x in s.completions ==> CompleterInv(s, x) && x.worker != w;
    }
  }

  lemma LeasesStep(s: State, w: string, a: Action, s': State)
    requires LeasesInv(s) && Step(s, w, a, s')
    ensures LeasesInv(s')
  {
    match a
    case Claim(id) => LeasesClaimStep(s, w, id, s');
    case Complete(ok) => LeasesCompleteStep(s, w, ok, s');
    case Enqueue(_, _, _) => LeasesStoreStep(s, w, a, s');
    case Recover => LeasesStoreStep(s, w, a, s');
    case Start(_) => LeasesStoreStep(s, w, a, s');
    case Spawn => LeasesWorkerStep(s, w, a, s');
    case Exit => LeasesWorkerStep(s, w, a, s');
    case Crash => LeasesWorkerStep(s, w, a, s');
    case CommitEffect => LeasesWorkerStep(s, w, a, s');
    case WriteCheckpoint => LeasesWorkerStep(s, w, a, s');
    case WriteReceipt => LeasesWorkerStep(s, w, a, s');
  }

  lemma {:induction false} LeasesHold(states: seq<State>, turns: seq<Turn>, i: nat)
    requires IsRun(states, turns) && i < |states|
    ensures LeasesInv(states[i])
  {
    if i > 0 {
      LeasesHold(states, turns, i - 1);
      LeasesStep(states[i - 1], turns[i - 1].worker, turns[i - 1].action, states[i]);
    }
  }

  /** The receipt of a completed task is its completing worker's if it names the final generation. */
  lemma FinalGenerationTells(s: State, id: string)
    requires Inv(s) && LeasesInv(s) && id in s.store && s.store[id].completed
    requires s.receipt.Some? && s.receipt.value.taskId == id
    ensures s.receipt.value.generation == s.store[id].generation <==>
            Completion(id, s.receipt.value.actor, s.store[id].generation) in s.completions
  {
    var c :| c in s.completions && c.taskId == id;
    if s.receipt.value.generation == s.store[id].generation {
      assert s.receipt.value.actor == c.worker;
    }
    if Completion(id, s.receipt.value.actor, s.store[id].generation) in s.completions {
      assert CompleterInv(s, Completion(id, s.receipt.value.actor, s.store[id].generation));
    }
  }

  // ---------------------------------------------------------------- from the last write on

  /** No receipt is written in the turns from `i` up to `j`. */
  ghost predicate NoWrite(turns: seq<Turn>, i: nat, j: nat) {
    forall t :: i <= t < j && t < |turns| ==> turns[t].action != WriteReceipt
  }

  /** The last turn before state `i` that writes the receipt. */
  ghost predicate IsLastWrite(turns: seq<Turn>, k: nat, i: nat) {
    k < i <= |turns| && turns[k].action == WriteReceipt && NoWrite(turns, k + 1, i)
  }

  lemma {:induction false} LastWriteExists(states: seq<State>, turns: seq<Turn>, i: nat) returns (k: nat)
    requires IsRun(states, turns) && i < |states| && states[i].receipt.Some?
    ensures IsLastWrite(turns, k, i)
    decreases i
  {
    assert Step(states[i - 1], turns[i - 1].worker, turns[i - 1].action, states[i]);
    if turns[i - 1].action == WriteReceipt {
      k := i - 1;
    } else {
      k := LastWriteExists(states, turns, i - 1);
    }
  }

  lemma {:induction false} ReceiptStays(states: seq<State>, turns: seq<Turn>, i: nat, j: nat)
    requires IsRun(states, turns) && i <= j < |states| && NoWrite(turns, i, j)
    ensures states[j].receipt == states[i].receipt
    decreases j
  {
    if i < j {
      ReceiptStays(states, turns, i, j - 1);
      assert Step(states[j - 1], turns[j - 1].worker, turns[j - 1].action, states[j]);
    }
  }

  /** A lost owner comes back only with a higher generation. */
  lemma {:induction false} LostOwnerStaysLost(states: seq<State>, turns: seq<Turn>, i: nat, j: nat, id: string)
    requires IsRun(states, turns) && i <= j < |states| && id in states[i].store && states[i].store[id].owner == None
    ensures id in states[j].store
    ensures states[j].store[id].generation == states[i].store[id].generation ==> states[j].store[id].owner == None
    decreases j
  {
    if i < j {
      GenerationsGrow(states, turns, i, j - 1, id);
      GenerationStep(states[j - 1], turns[j - 1].worker, turns[j - 1].action, states[j], id);
      LostOwnerStaysLost(states, turns, i, j - 1, id);
      if states[j].store[id].generation == states[i].store[id].generation {
        OwnerStep(states[j - 1], turns[j - 1].worker, turns[j - 1].action, states[j], id);
      }
    }
  }

  lemma OwnerStep(s: State, w: string, a: Action, s': State, id: string)
    requires Step(s, w, a, s') && id in s.store && id in s'.store
    requires s.store[id].owner == None && s'.store[id].generation == s.store[id].generation
    ensures s'.store[id].owner == None
  {
  }

  /** Leases that have their receipt, or their completion, are no younger than the state `since`. */
  ghost predicate NoYoungerThan(since: State, s: State) {
    && (forall v :: v in s.workers && s.workers[v].Receipted? ==>
          IsOldLease(since, s.workers[v].copy.taskId, s.workers[v].copy.generation))
    && (forall c :: c in s.completions ==> IsOldLease(since, c.taskId, c.generation))
  }

  ghost predicate IsOldLease(since: State, id: string, generation: nat) {
    id in since.store && generation <= since.store[id].generation
  }

  /** Without a write, nothing claimed later than state `i` can be completed. */
  lemma {:induction false} OnlyOldLeasesComplete(states: seq<State>, turns: seq<Turn>, i: nat, j: nat)
    requires IsRun(states, turns) && i <= j < |states| && NoWrite(turns, i, j)
    ensures NoYoungerThan(states[i], states[j])
    decreases j
  {
    if i == j {
      InvHolds(states, turns, i);
    } else {
      OnlyOldLeasesComplete(states, turns, i, j - 1);
      OldLeaseStep(states[i], states[j - 1], turns[j - 1].worker, turns[j - 1].action, states[j]);
    }
  }

  lemma OldLeaseStep(since: State, s: State, w: string, a: Action, s': State)
    requires NoYoungerThan(since, s) && Step(s, w, a, s') && a != WriteReceipt
    ensures NoYoungerThan(since, s')
  {
  }

  /**
   Exactly when the receipt can be trusted.  Let turn `k` be the last that wrote it.  Once the
   task is completed, the receipt is the completing worker's if and only if its writer still
   owned the task, under the lease it names, when it wrote.  The code does not ask.
   */
  lemma ReceiptBelongsToFinalLease(states: seq<State>, turns: seq<Turn>, i: nat, k: nat, id: string)
    requires IsRun(states, turns) && i < |states| && IsLastWrite(turns, k, i)
    requires id in states[i].store && states[i].store[id].completed
    requires states[i].receipt.Some? && states[i].receipt.value.taskId == id
    ensures var w := turns[k].worker;
            && w in states[k].workers && states[k].workers[w].Checkpointed?
            && var c := states[k].workers[w].copy;
               && states[i].receipt == Some(Receipt(id, w, c.generation, c.key, Total(c.values)))
               && (Completion(id, w, states[i].store[id].generation) in states[i].completions
                   <==> Owned(states[k].store, id, w, c.generation))
  {
    var w := turns[k].worker;
    assert Step(states[k], w, WriteReceipt, states[k + 1]);
    ReceiptStays(states, turns, k + 1, i);
    var c := states[k].workers[w].copy;
    InvHolds(states, turns, k);
    InvHolds(states, turns, i);
    LeasesHold(states, turns, k);
    LeasesHold(states, turns, i);
    assert WorkerInv(states[k], w, states[k].workers[w]);
    GenerationsGrow(states, turns, k, i, id);
    FinalGenerationTells(states[i], id);
    if Owned(states[k].store, id, w, c.generation) {
      OwnerAtWriteCompletes(states, turns, i, k, id, c.generation);
    }
    if Completion(id, w, states[i].store[id].generation) in states[i].completions {
      CompleterOwnedAtWrite(states, turns, i, k, id, w, c.generation);
    }
  }

  lemma OwnerAtWriteCompletes(states: seq<State>, turns: seq<Turn>, i: nat, k: nat, id: string, generation: nat)
    requires IsRun(states, turns) && i < |states| && IsLastWrite(turns, k, i)
    requires id in states[k].store && states[k].store[id].generation == generation
    requires id in states[i].store && states[i].store[id].completed
    ensures states[i].store[id].generation == generation
  {
    assert Step(states[k], turns[k].worker, WriteReceipt, states[k + 1]);
    GenerationsGrow(states, turns, k, i, id);
    OnlyOldLeasesComplete(states, turns, k + 1, i);
    InvHolds(states, turns, i);
    var c :| c in states[i].completions && c.taskId == id;
    assert IsOldLease(states[k + 1], c.taskId, c.generation);
  }

  lemma CompleterOwnedAtWrite(states: seq<State>, turns: seq<Turn>, i: nat, k: nat, id: string, w: string,
                              generation: nat)
    requires IsRun(states, turns) && k < i < |states|
    requires w in states[k].workers && states[k].workers[w].Checkpointed?
    requires states[k].workers[w].copy.taskId == id && states[k].workers[w].copy.generation == generation
    requires id in states[i].store && states[i].store[id].generation == generation
    requires states[i].store[id].completed && states[i].store[id].owner == Some(w)
    ensures Owned(states[k].store, id, w, generation)
  {
    InvHolds(states, turns, k);
    LeasesHold(states, turns, k);
    var s := states[k];
    assert WorkerInv(s, w, s.workers[w]);
    GenerationsGrow(states, turns, k, i, id);
    assert s.store[id].generation == generation;
    if s.store[id].owner == None {
      LostOwnerStaysLost(states, turns, k, i, id);
    }
    forall c | c in s.completions ensures c.worker != w {
      assert CompleterInv(s, c);
    }
  }

  // ---------------------------------------------------------------- what it does not guarantee

  ghost predicate Reachable(s: State) {
    exists states, turns :: IsRun(states, turns) && states[|turns|] == s
  }

  lemma ReachableStep(s: State, w: string, a: Action, s': State)
    requires Reachable(s) && Step(s, w, a, s')
    ensures Reachable(s')
  {
    var states, turns :| IsRun(states, turns) && states[|turns|] == s;
    var states', turns' := states + [s'], turns + [Turn(w, a)];
    assert forall i :: 0 <= i < |states| ==> states'[i] == states[i];
    assert forall i :: 0 <= i < |turns| ==> turns'[i] == turns[i];
    assert IsRun(states', turns') && states'[|turns'|] == s';
  }

  /** A worker `w` takes task "t" as far as its checkpoint. */
  lemma ReachCheckpoint(s: State, w: string, t: Task) returns (s': State)
    requires Reachable(s) && w in s.workers && s.workers[w].Idle?
    requires "t" in s.store && !s.store["t"].completed
    requires t == s.store["t"].(owner := Some(w), generation := s.store["t"].generation + 1,
                                attempt := s.store["t"].attempt + 1)
    ensures Reachable(s')
    ensures s'.store == s.store["t" := t]
    ensures s'.workers == s.workers[w := Checkpointed(Copy("t", t.generation, t.attempt, t.key, t.values))]
  {
    var c := Copy("t", t.generation, t.attempt, t.key, t.values);
    var s1 := Set(s, w, Claimed(c)).(store := s.store["t" := t]);
    assert Step(s, w, Claim("t"), s1);
    ReachableStep(s, w, Claim("t"), s1);
    var s2 := Set(s1, w, Started(c));
    ReachableStep(s1, w, Start(true), s2);
    var s3 := Set(s2, w, EffectDone(c)).(
      effects := InsertOrIgnore(s2.effects, EffectRow(c.key, c.taskId, Total(c.values))));
    ReachableStep(s2, w, CommitEffect, s3);
    s' := Set(s3, w, Checkpointed(c)).(
      checkpoints := s3.checkpoints[c.attempt := Checkpoint(w, c.taskId, c.generation, c.key)]);
    ReachableStep(s3, w, WriteCheckpoint, s');
    assert s'.workers == s.workers[w := Checkpointed(c)];
  }

  /** A reachable state with one task and two workers that have not claimed it yet. */
  lemma ReachTwoWorkers(task: Task) returns (s: State)
    requires task == Task("k", [11, 29, 7], None, 0, 0, false)
    ensures Reachable(s) && s.store == map["t" := task] && s.workers == map["a" := Idle, "b" := Idle]
  {
    var s0 := State(map[], map[], [], map[], None, []);
    assert IsRun([s0], []) && [s0][0] == s0;
    assert Reachable(s0);
    var s1 := s0.(store := map["t" := task]);
    assert s1.store == s0.store["t" := task];
    ReachableStep(s0, "a", Enqueue("t", "k", [11, 29, 7]), s1);
    var s2 := Set(s1, "a", Idle);
    ReachableStep(s1, "a", Spawn, s2);
    s := Set(s2, "b", Idle);
    ReachableStep(s2, "b", Spawn, s);
  }

  /** Worker "a" is still at its checkpoint, and "b" has claimed the task after it expired. */
  lemma ReachTwoLeases(task: Task) returns (s: State)
    requires task == Task("k", [11, 29, 7], None, 0, 0, false)
    ensures Reachable(s)
    ensures s.store == map["t" := task.(owner := Some("b"), generation := 2, attempt := 2)]
    ensures s.workers == map["a" := Checkpointed(Copy("t", 1, 1, task.key, task.values)),
                             "b" := Checkpointed(Copy("t", 2, 2, task.key, task.values))]
  {
    var s3 := ReachTwoWorkers(task);
    var first := task.(owner := Some("a"), generation := 1, attempt := 1);
    var s4 := ReachCheckpoint(s3, "a", first);
    var s5 := s4.(store := s4.store["t" := first.(owner := None)]);
    ReachableStep(s4, "a", Recover, s5);
    s := ReachCheckpoint(s5, "b", task.(owner := Some("b"), generation := 2, attempt := 2));
  }

  lemma ReachReceipt(s: State, w: string) returns (s': State)
    requires Reachable(s) && w in s.workers && s.workers[w].Checkpointed?
    ensures Reachable(s')
    ensures var c := s.workers[w].copy;
            s' == Set(s, w, Receipted(c)).(
              receipt := Some(Receipt(c.taskId, w, c.generation, c.key, Total(c.values))))
  {
    var c := s.workers[w].copy;
    s' := Set(s, w, Receipted(c)).(receipt := Some(Receipt(c.taskId, w, c.generation, c.key, Total(c.values))));
    ReachableStep(s, w, WriteReceipt, s');
  }

  lemma ReachCompletion(s: State, w: string) returns (s': State)
    requires Reachable(s) && w in s.workers && s.workers[w].Receipted?
    requires Owned(s.store, s.workers[w].copy.taskId, w, s.workers[w].copy.generation)
    ensures Reachable(s')
    ensures var c := s.workers[w].copy;
            s'.store == s.store[c.taskId := s.store[c.taskId].(completed := true)]
            && s'.workers == s.workers[w := Finished(c)]
  {
    var c := s.workers[w].copy;
    s' := Set(s, w, Finished(c)).(
      store := s.store[c.taskId := s.store[c.taskId].(completed := true)],
      completions := s.completions + [Completion(c.taskId, w, c.generation)]);
    ReachableStep(s, w, Complete(true), s');
  }

  /**
   The receipt is not fenced: a stale worker that wakes up after its successor has completed
   the task overwrites `receipt.json`, which then names an older lease than the task does.
   */
  lemma StaleReceiptIsReachable()
    ensures exists s :: Reachable(s) && "t" in s.store && s.store["t"].completed
                        && s.receipt.Some? && s.receipt.value.taskId == "t"
                        && s.receipt.value.generation < s.store["t"].generation
  {
    var s6 := ReachTwoLeases(Task("k", [11, 29, 7], None, 0, 0, false));
    var s7 := ReachReceipt(s6, "b");
    var s8 := ReachCompletion(s7, "b");
    var s9 := ReachReceipt(s8, "a");
    assert s9.store["t"].completed && s9.receipt.value.generation == 1;
  }

  /** A worker can die between its completion and its exit: it fails on a completed task. */
  lemma LateDeathIsReachable()
    ensures exists s :: Reachable(s) && "t" in s.store && s.store["t"].completed
                        && s.workers == map["a" := Checkpointed(Copy("t", 1, 1, "k", [11, 29, 7])), "b" := Dead]
  {
    var s6 := ReachTwoLeases(Task("k", [11, 29, 7], None, 0, 0, false));
    var s7 := ReachReceipt(s6, "b");
    var s8 := ReachCompletion(s7, "b");
    var s9 := Set(s8, "b", Dead);
    ReachableStep(s8, "b", Crash, s9);
    assert s9.workers == map["a" := Checkpointed(Copy("t", 1, 1, "k", [11, 29, 7])), "b" := Dead];
  }
}
