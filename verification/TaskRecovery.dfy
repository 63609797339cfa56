/**
 The crash-and-recovery protocol of scripts/run_level8_task_recovery.py: any number of
 workers, each going through claim, start, effect, checkpoint, receipt and completion,
 interleaved with crashes, expiring leases, recovery and stale workers that keep running.
 */
module TaskRecovery {
  import opened Options
  import opened Sums
  import opened LeaseContract

  /** The task as `claim` returned it to a worker. */
  datatype Copy = Copy(taskId: string, generation: nat, attempt: nat, key: string, values: seq<int>)

  /** How far a worker has come: `Finished` has been granted its completion, `Exited` is exit
   code zero, `Dead` any other end. */
  datatype Worker =
    | Idle
    | Claimed(copy: Copy)
    | Started(copy: Copy)
    | EffectDone(copy: Copy)
    | Checkpointed(copy: Copy)
    | Receipted(copy: Copy)
    | Finished(copy: Copy)
    | Exited(copy: Copy)
    | Dead

  datatype EffectRow = EffectRow(effectId: string, taskId: string, value: int)

  /** Both files name the task, the lease and the effect; the receipt also holds the result. */
  datatype Checkpoint = Checkpoint(worker: string, taskId: string, generation: nat, effectId: string)

  datatype Receipt = Receipt(taskId: string, actor: string, generation: nat, effectId: string, result: int)

  datatype Completion = Completion(taskId: string, worker: string, generation: nat)

  /** `completions` records, in order, the calls of `complete` that returned true. */
  datatype State = State(
    store: Store, workers: map<string, Worker>, effects: seq<EffectRow>,
    checkpoints: map<nat, Checkpoint>, receipt: Option<Receipt>, completions: seq<Completion>)

  function Total(values: seq<int>): int {
    Sum(values, x => x)
  }

  /** `sum(task["payload"]["values"])`, value by value. */
  lemma TotalAdds(values: seq<int>, value: int)
    ensures Total([]) == 0 && Total(values + [value]) == Total(values) + value
  {
    var f: int -> int := x => x;
    assert Total(values) == Sum(values, f) && Total(values + [value]) == Sum(values + [value], f);
    SumOfOneMore(values, value, f);
  }

  predicate HasEffect(effects: seq<EffectRow>, key: string) {
    exists r :: r in effects && r.effectId == key
  }

  /** `INSERT OR IGNORE` into a table keyed by `effect_id`. */
  function InsertOrIgnore(effects: seq<EffectRow>, row: EffectRow): seq<EffectRow> {
    if HasEffect(effects, row.effectId) then effects else effects + [row]
  }

  // ---------------------------------------------------------------- steps

  datatype Action =
    | Enqueue(id: string, key: string, values: seq<int>)
    | Spawn
    | Claim(id: string)
    | Start(ok: bool)
    | CommitEffect
    | WriteCheckpoint
    | WriteReceipt
    | Complete(ok: bool)
    | Exit
    | Crash
    | Recover

  function Set(s: State, w: string, worker: Worker): State {
    s.(workers := s.workers[w := worker])
  }

  ghost predicate Step(s: State, w: string, a: Action, s': State) {
    match a
    case Enqueue(id, key, values) =>
      Enqueues(s.store, s'.store, id, key, values) && s' == s.(store := s'.store)
    case Recover => Recovers(s.store, s'.store) && s' == s.(store := s'.store)
    case Spawn => w !in s.workers && s' == Set(s, w, Idle)
    case Crash => w in s.workers && !s.workers[w].Exited? && s' == Set(s, w, Dead)
    case Claim(id) =>
      && w in s.workers && s.workers[w].Idle?
      && Claims(s.store, s'.store, id, w)
      && var t := s'.store[id];
         s' == Set(s, w, Claimed(Copy(id, t.generation, t.attempt, t.key, t.values))).(store := s'.store)
    case Start(ok) =>
      && w in s.workers && s.workers[w].Claimed?
      && var c := s.workers[w].copy;
         && Starts(s.store, s'.store, c.taskId, w, c.generation, ok)
         && s' == Set(s, w, if ok then Started(c) else Dead).(store := s'.store)
    case CommitEffect =>
      && w in s.workers && s.workers[w].Started?
      && var c := s.workers[w].copy;
         s' == Set(s, w, EffectDone(c)).(
           effects := InsertOrIgnore(s.effects, EffectRow(c.key, c.taskId, Total(c.values))))
    case WriteCheckpoint =>
      && w in s.workers && s.workers[w].EffectDone?
      && var c := s.workers[w].copy;
         s' == Set(s, w, Checkpointed(c)).(
           checkpoints := s.checkpoints[c.attempt := Checkpoint(w, c.taskId, c.generation, c.key)])
    case WriteReceipt =>
      && w in s.workers && s.workers[w].Checkpointed?
      && var c := s.workers[w].copy;
         s' == Set(s, w, Receipted(c)).(
           receipt := Some(Receipt(c.taskId, w, c.generation, c.key, Total(c.values))))
    case Complete(ok) =>
      && w in s.workers && s.workers[w].Receipted?
      && var c := s.workers[w].copy;
         && Completes(s.store, s'.store, c.taskId, w, c.generation, ok)
         && s' == Set(s, w, if ok then Finished(c) else Dead).(
              store := s'.store,
              completions := s.completions + (if ok then [Completion(c.taskId, w, c.generation)] else []))
    case Exit =>
      w in s.workers && s.workers[w].Finished? && s' == Set(s, w, Exited(s.workers[w].copy))
  }

  ghost predicate Init(s: State) {
    s == State(map[], map[], [], map[], None, [])
  }

  datatype Turn = Turn(worker: string, action: Action)

  ghost predicate IsRun(states: seq<State>, turns: seq<Turn>) {
    && |states| == |turns| + 1 && Init(states[0])
    && forall i :: 0 <= i < |turns| ==> Step(states[i], turns[i].worker, turns[i].action, states[i + 1])
  }

  // ---------------------------------------------------------------- the invariant

  ghost predicate DistinctKeys(st: Store) {
    forall a, b :: a in st && b in st && a != b ==> st[a].key != st[b].key
  }

  predicate PastEffect(k: Worker) {
    k.EffectDone? || k.Checkpointed? || k.Receipted? || k.Finished? || k.Exited?
  }

  predicate HasCopy(k: Worker) {
    !k.Idle? && !k.Dead?
  }

  ghost predicate CopyIsTrue(s: State, c: Copy) {
    c.taskId in s.store && s.store[c.taskId].key == c.key && s.store[c.taskId].values == c.values
    && c.generation <= s.store[c.taskId].generation
  }

  ghost predicate WorkersInv(s: State) {
    DistinctKeys(s.store) && forall w :: w in s.workers && HasCopy(s.workers[w]) ==> WorkerInv(s, w, s.workers[w])
  }

  ghost predicate WorkerInv(s: State, w: string, k: Worker)
    requires HasCopy(k)
  {
    && CopyIsTrue(s, k.copy)
    && (PastEffect(k) ==> HasEffect(s.effects, k.copy.key))
    && (k.Receipted? ==> s.receipt.Some?)
    && (k.Finished? || k.Exited? ==> Completion(k.copy.taskId, w, k.copy.generation) in s.completions)
  }

  ghost predicate EffectsInv(s: State) {
    && (forall i, j :: 0 <= i < j < |s.effects| ==> s.effects[i].effectId != s.effects[j].effectId)
    && (forall r :: r in s.effects ==>
          r.taskId in s.store && s.store[r.taskId].key == r.effectId && r.value == Total(s.store[r.taskId].values))
    && (forall n :: n in s.checkpoints ==>
          s.checkpoints[n].taskId in s.store && s.store[s.checkpoints[n].taskId].key == s.checkpoints[n].effectId
          && HasEffect(s.effects, s.checkpoints[n].effectId))
    && (s.receipt.Some? ==>
          var r := s.receipt.value;
          r.taskId in s.store && s.store[r.taskId].key == r.effectId && r.result == Total(s.store[r.taskId].values)
          && HasEffect(s.effects, r.effectId))
  }

  ghost predicate CompletionsInv(s: State) {
    && (forall i, j :: 0 <= i < j < |s.completions| ==> s.completions[i].taskId != s.completions[j].taskId)
    && (forall c :: c in s.completions ==>
          c.taskId in s.store && s.store[c.taskId].completed
          && s.store[c.taskId].owner == Some(c.worker) && s.store[c.taskId].generation == c.generation)
    && (forall id :: id in s.store && s.store[id].completed ==>
          HasEffect(s.effects, s.store[id].key) && s.receipt.Some?
          && exists c :: c in s.completions && c.taskId == id)
  }

  ghost predicate Inv(s: State) {
    WorkersInv(s) && EffectsInv(s) && CompletionsInv(s)
  }

  // ---------------------------------------------------------------- preservation

  lemma EffectStays(effects: seq<EffectRow>, row: EffectRow, key: string)
    ensures HasEffect(InsertOrIgnore(effects, row), key) <==> HasEffect(effects, key) || key == row.effectId
  {
    var after := InsertOrIgnore(effects, row);
    if HasEffect(effects, key) {
      var r :| r in effects && r.effectId == key;
      assert r in after;
    }
    if key == row.effectId && !HasEffect(effects, key) {
      assert row in after;
    }
  }

  /** Steps that only touch the store keep keys, payloads and completions of known tasks. */
  ghost predicate StoreKept(st: Store, st': Store) {
    && st.Keys <= st'.Keys
    && (forall id :: id in st ==>
          st'[id].key == st[id].key && st'[id].values == st[id].values
          && st'[id].generation >= st[id].generation
          && (st[id].completed ==> st'[id] == st[id]))
    && (forall id :: id in st' && st'[id].completed ==> id in st && st[id].completed)
    && DistinctKeys(st')
  }

  lemma StoreStepKeeps(s: State, w: string, a: Action, s': State)
    requires Inv(s) && Step(s, w, a, s') && (a.Enqueue? || a.Recover? || a.Claim? || a.Start?)
    ensures StoreKept(s.store, s'.store)
    ensures s'.effects == s.effects && s'.checkpoints == s.checkpoints && s'.receipt == s.receipt
            && s'.completions == s.completions
  {
  }

  lemma StoreStep(s: State, w: string, a: Action, s': State)
    requires Inv(s) && Step(s, w, a, s') && (a.Enqueue? || a.Recover? || a.Claim? || a.Start?)
    ensures Inv(s')
  {
    StoreStepKeeps(s, w, a, s');
    KeptEffects(s, s');
    forall v | v in s'.workers && HasCopy(s'.workers[v]) ensures WorkerInv(s', v, s'.workers[v]) {
      if v != w {
        assert v in s.workers && s'.workers[v] == s.workers[v] && WorkerInv(s, v, s.workers[v]);
      } else if w in s.workers && HasCopy(s.workers[w]) {
        assert WorkerInv(s, w, s.workers[w]);
      }
    }
  }

  lemma KeptEffects(s: State, s': State)
    requires EffectsInv(s) && CompletionsInv(s) && StoreKept(s.store, s'.store)
    requires s'.effects == s.effects && s'.checkpoints == s.checkpoints && s'.receipt == s.receipt
             && s'.completions == s.completions
    ensures EffectsInv(s') && CompletionsInv(s')
  {
  }

  lemma LocalStep(s: State, w: string, a: Action, s': State)
    requires Inv(s) && Step(s, w, a, s') && (a.Spawn? || a.Exit? || a.Crash?)
    ensures Inv(s')
  {
  }

  lemma CommitStep(s: State, w: string, s': State)
    requires Inv(s) && Step(s, w, CommitEffect, s')
    ensures Inv(s')
  {
    var c := s.workers[w].copy;
    var row := EffectRow(c.key, c.taskId, Total(c.values));
    forall key ensures HasEffect(s'.effects, key) <==> HasEffect(s.effects, key) || key == c.key {
      EffectStays(s.effects, row, key);
    }
    assert forall r :: r in s'.effects ==> r in s.effects || r == row;
    if !HasEffect(s.effects, c.key) {
      assert forall i :: 0 <= i < |s.effects| ==> s.effects[i] in s.effects;
    }
  }

  lemma FileStep(s: State, w: string, a: Action, s': State)
    requires Inv(s) && Step(s, w, a, s') && (a.WriteCheckpoint? || a.WriteReceipt?)
    ensures Inv(s')
  {
  }

  lemma CompleteStep(s: State, w: string, ok: bool, s': State)
    requires Inv(s) && Step(s, w, Complete(ok), s')
    ensures Inv(s')
  {
    CompleteKeepsOthers(s, w, ok, s');
    if ok {
      CompletedInv(s, w, s');
    } else {
      assert s'.completions == s.completions;
    }
  }

  lemma CompleteKeepsOthers(s: State, w: string, ok: bool, s': State)
    requires WorkersInv(s) && EffectsInv(s) && Step(s, w, Complete(ok), s')
    ensures WorkersInv(s') && EffectsInv(s')
  {
    CompleteKeepsTasks(s, w, ok, s');
    assert forall x :: x in s.completions ==> x in s'.completions;
    forall v | v in s'.workers && HasCopy(s'.workers[v]) ensures WorkerInv(s', v, s'.workers[v]) {
      assert WorkerInv(s, v, s.workers[v]);
      if v == w {
        assert s'.completions[|s.completions|] == Completion(s.workers[w].copy.taskId, w, s.workers[w].copy.generation);
      }
    }
  }

  lemma CompleteKeepsTasks(s: State, w: string, ok: bool, s': State)
    requires Step(s, w, Complete(ok), s')
    ensures s'.store.Keys == s.store.Keys
    ensures forall id :: id in s.store ==> s'.store[id].(completed := false) == s.store[id].(completed := false)
  {
  }

  lemma CompletedInv(s: State, w: string, s': State)
    requires Inv(s) && Step(s, w, Complete(true), s')
    ensures CompletionsInv(s')
  {
    var c := s.workers[w].copy;
    var done := Completion(c.taskId, w, c.generation);
    assert s'.completions == s.completions + [done];
    assert forall x :: x in s'.completions <==> x in s.completions || x == done;
    assert forall i :: 0 <= i < |s.completions| ==> s.completions[i] in s.completions;
    forall id | id in s'.store && s'.store[id].completed
      ensures exists x :: x in s'.completions && x.taskId == id
    {
      CompletionListed(s.completions, done, id);
    }
  }

  lemma CompletionListed(completions: seq<Completion>, done: Completion, id: string)
    requires id == done.taskId || exists x :: x in completions && x.taskId == id
    ensures exists x :: x in completions + [done] && x.taskId == id
  {
    assert done in completions + [done];
    if id != done.taskId {
      var x :| x in completions && x.taskId == id;
      assert x in completions + [done];
    }
  }

  lemma StepKeepsInv(s: State, w: string, a: Action, s': State)
    requires Inv(s) && Step(s, w, a, s')
    ensures Inv(s')
  {
    match a
    case Spawn => LocalStep(s, w, a, s');
    case Exit => LocalStep(s, w, a, s');
    case Crash => LocalStep(s, w, a, s');
    case CommitEffect => CommitStep(s, w, s');
    case WriteCheckpoint => FileStep(s, w, a, s');
    case WriteReceipt => FileStep(s, w, a, s');
    case Complete(ok) => CompleteStep(s, w, ok, s');
    case Enqueue(_, _, _) => StoreStep(s, w, a, s');
    case Recover => StoreStep(s, w, a, s');
    case Claim(_) => StoreStep(s, w, a, s');
    case Start(_) => StoreStep(s, w, a, s');
  }

  lemma {:induction false} InvHolds(states: seq<State>, turns: seq<Turn>, i: nat)
    requires IsRun(states, turns) && i < |states|
    ensures Inv(states[i])
  {
    if i > 0 {
      InvHolds(states, turns, i - 1);
      StepKeepsInv(states[i - 1], turns[i - 1].worker, turns[i - 1].action, states[i]);
    }
  }

  // ---------------------------------------------------------------- what a run guarantees

  /**
   Exactly once: a key has one effect row at most, a row holds the sum of its task's
   payload, `complete` succeeds at most once per task, and a completed task has its row.
   */
  lemma ExactlyOnceEffect(states: seq<State>, turns: seq<Turn>, i: nat)
    requires IsRun(states, turns) && i < |states|
    ensures var s := states[i];
            && (forall a, b :: 0 <= a < b < |s.effects| ==> s.effects[a].effectId != s.effects[b].effectId)
            && (forall r :: r in s.effects ==>
                  r.taskId in s.store && r.effectId == s.store[r.taskId].key
                  && r.value == Total(s.store[r.taskId].values))
            && (forall a, b :: 0 <= a < b < |s.completions| ==> s.completions[a].taskId != s.completions[b].taskId)
            && (forall id :: id in s.store && s.store[id].completed ==>
                  EffectRow(s.store[id].key, id, Total(s.store[id].values)) in s.effects)
  {
    InvHolds(states, turns, i);
    var s := states[i];
    forall id | id in s.store && s.store[id].completed
      ensures EffectRow(s.store[id].key, id, Total(s.store[id].values)) in s.effects
    {
      var r :| r in s.effects && r.effectId == s.store[id].key;
      assert s.store[r.taskId].key == s.store[id].key;
      assert r.taskId == id;
    }
  }

  /** A process that ends with exit code zero has completed its task, under the final lease. */
  lemma ExitZeroMeansCompleted(states: seq<State>, turns: seq<Turn>, i: nat, w: string)
    requires IsRun(states, turns) && i < |states|
    requires w in states[i].workers && states[i].workers[w].Exited?
    ensures var s, c := states[i], states[i].workers[w].copy;
            && c.taskId in s.store && s.store[c.taskId].completed
            && s.store[c.taskId].owner == Some(w) && s.store[c.taskId].generation == c.generation
            && EffectRow(c.key, c.taskId, Total(c.values)) in s.effects
  {
    InvHolds(states, turns, i);
    ExactlyOnceEffect(states, turns, i);
  }

  /** Whoever wrote them last, the files on disk name an effect that is committed. */
  lemma FilesNameCommittedEffects(states: seq<State>, turns: seq<Turn>, i: nat)
    requires IsRun(states, turns) && i < |states|
    ensures var s := states[i];
            && (forall n :: n in s.checkpoints ==> HasEffect(s.effects, s.checkpoints[n].effectId))
            && (s.receipt.Some? ==>
                  HasEffect(s.effects, s.receipt.value.effectId)
                  && s.receipt.value.taskId in s.store
                  && s.receipt.value.result == Total(s.store[s.receipt.value.taskId].values))
            && (forall id :: id in s.store && s.store[id].completed ==> s.receipt.Some?)
  {
    InvHolds(states, turns, i);
  }

  lemma {:induction false} GenerationsGrow(states: seq<State>, turns: seq<Turn>, i: nat, j: nat, id: string)
    requires IsRun(states, turns) && i <= j < |states| && id in states[i].store
    ensures id in states[j].store
    ensures states[i].store[id].generation <= states[j].store[id].generation
    ensures states[i].store[id].completed ==> states[j].store[id] == states[i].store[id]
    decreases j
  {
    if i < j {
      GenerationsGrow(states, turns, i, j - 1, id);
      GenerationStep(states[j - 1], turns[j - 1].worker, turns[j - 1].action, states[j], id);
    }
  }

  lemma GenerationStep(s: State, w: string, a: Action, s': State, id: string)
    requires Step(s, w, a, s') && id in s.store
    ensures id in s'.store && s.store[id].generation <= s'.store[id].generation
    ensures s.store[id].completed ==> s'.store[id] == s.store[id]
  {
  }

  /**
   Fencing: once another claim has raised the generation, a worker that still holds the
   older lease can neither start nor complete the task, however long it keeps running.
   */
  lemma StaleWorkerIsFenced(states: seq<State>, turns: seq<Turn>, i: nat, j: nat, w: string)
    requires IsRun(states, turns) && i <= j < |turns|
    requires turns[j].worker == w && w in states[j].workers && HasCopy(states[j].workers[w])
    requires var c := states[j].workers[w].copy;
             c.taskId in states[i].store && c.generation < states[i].store[c.taskId].generation
    ensures turns[j].action != Start(true) && turns[j].action != Complete(true)
  {
    var c := states[j].workers[w].copy;
    GenerationsGrow(states, turns, i, j, c.taskId);
    assert Step(states[j], w, turns[j].action, states[j + 1]);
  }

  // ---------------------------------------------------------------- supervision

  /** How a child ended when `join(45)` returned; a hung one is terminated. */
  datatype Child = Ended(code: int) | Hung

  datatype Verdict = Recovered | WorkerTimeout | BudgetExhausted

  /** The retry loop over the ends of the children it starts. */
  method Supervise(child: nat -> Child) returns (verdict: Verdict, started: nat)
    ensures 1 <= started <= 2
    ensures verdict == Recovered <==> child(started - 1) == Ended(0)
    ensures verdict == WorkerTimeout <==> child(started - 1) == Hung
    ensures verdict == BudgetExhausted ==> started == 2
    ensures forall k: nat :: k < started - 1 ==> child(k).Ended? && child(k).code != 0
  {
    started := 0;
    for attempt := 0 to 2
      invariant started == attempt
      invariant forall k: nat :: k < attempt ==> child(k).Ended? && child(k).code != 0
    {
      started := started + 1;
      var end := child(attempt);
      if end.Hung? {
        return WorkerTimeout, started;
      }
      if end.code == 0 {
        return Recovered, started;
      }
    }
    verdict := BudgetExhausted;
  }
}
