/**
 What the recovery worker may rely on in the task store: a claim raises the generation
 and takes ownership, starting and completing succeed only for the current owner and
 generation, completion happens once, and an expired lease can be claimed again.
 */
module LeaseContract {
  import opened Options

  /** A task as its workers see it. */
  datatype Task = Task(
    key: string, values: seq<int>, owner: Option<string>, generation: nat, attempt: nat, completed: bool)

  type Store = map<string, Task>

  ghost predicate SameOthers(st: Store, st': Store, id: string) {
    st'.Keys == st.Keys && forall k :: k in st && k != id ==> st'[k] == st[k]
  }

  ghost predicate Owned(st: Store, id: string, worker: string, generation: nat) {
    id in st && st[id].owner == Some(worker) && st[id].generation == generation && !st[id].completed
  }

  ghost predicate Enqueues(st: Store, st': Store, id: string, key: string, values: seq<int>) {
    && id !in st && (forall k :: k in st ==> st[k].key != key)
    && st' == st[id := Task(key, values, None, 0, 0, false)]
  }

  ghost predicate Claims(st: Store, st': Store, id: string, worker: string) {
    && id in st && SameOthers(st, st', id)
    && var before, after := st[id], st'[id];
       && !before.completed && !after.completed
       && after.key == before.key && after.values == before.values
       && after.owner == Some(worker) && after.generation > before.generation
  }

  ghost predicate Starts(st: Store, st': Store, id: string, worker: string, generation: nat, ok: bool) {
    st' == st && (ok ==> Owned(st, id, worker, generation))
  }

  ghost predicate Completes(st: Store, st': Store, id: string, worker: string, generation: nat, ok: bool) {
    if ok then Owned(st, id, worker, generation) && st' == st[id := st[id].(completed := true)]
    else st' == st
  }

  /** Expiry and recovery: a task may lose its owner, and nothing else. */
  ghost predicate Recovers(st: Store, st': Store) {
    && st'.Keys == st.Keys
    && forall k :: k in st ==>
         st'[k] == st[k] || (st'[k] == st[k].(owner := None) && !st[k].completed)
  }
}
