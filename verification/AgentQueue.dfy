/**
 The work queue of apps/mobile_node_agent.py: submitters and worker threads share a job
 table behind a lock and a FIFO queue of job ids.  Every section under the lock, and every
 queue operation, is one atomic step; steps interleave in any order.
 */
module AgentQueue {
  import opened Options

  datatype Request = Request(task: string, payload: string, seconds: real)

  datatype Status = Queued | Running | Completed | Failed

  /** The `result` field first holds the request and is later overwritten by the output. */
  datatype Content = Nothing | TheRequest(request: Request) | Output(text: string)

  datatype Job = Job(task: string, status: Status, result: Content, error: Option<string>)

  /** A worker thread; `Dead` is a thread ended by an exception that it does not catch. */
  datatype Worker =
    | Waiting
    | Taken(id: string)
    | Holding(id: string)
    | Working(id: string, request: Request)
    | Dead(id: string)

  /** What the agent's methods share. */
  datatype Shared = Shared(jobs: map<string, Job>, queue: seq<string>)

  // ---------------------------------------------------------------- atomic sections

  function Insert(s: Shared, id: string, request: Request): Shared {
    s.(jobs := s.jobs[id := Job(request.task, Queued, TheRequest(request), None)])
  }

  function Begin(s: Shared, id: string): Shared
    requires id in s.jobs
  {
    s.(jobs := s.jobs[id := s.jobs[id].(status := Running)])
  }

  /** `(job.result or {}).get("request", {})`: None is the empty dictionary. */
  function RequestIn(job: Job): Option<Request> {
    match job.result case TheRequest(r) => Some(r) case _ => None
  }

  function Finish(s: Shared, id: string, output: Option<string>, error: string): Shared
    requires id in s.jobs
  {
    match output
    case Some(text) => s.(jobs := s.jobs[id := s.jobs[id].(status := Completed, result := Output(text))])
    case None => s.(jobs := s.jobs[id := s.jobs[id].(status := Failed, error := Some(error))])
  }

  class MobileNodeAgent {
    var allowJobs: bool
    var jobs: map<string, Job>
    var queue: seq<string>

    constructor (allowJobs: bool)
      ensures this.allowJobs == allowJobs && State() == Shared(map[], [])
    {
      this.allowJobs := allowJobs;
      jobs, queue := map[], [];
    }

    function State(): Shared
      reads this
    {
      Shared(jobs, queue)
    }

    /** The first section of `submit`; the caller then puts the id. */
    method InsertJob(request: Request, freshId: string) returns (id: Option<string>)
      modifies this`jobs
      ensures !allowJobs ==> id == None && State() == old(State())
      ensures allowJobs ==> id == Some(freshId) && State() == Insert(old(State()), freshId, request)
      ensures allowJobs ==> jobs == old(jobs)[freshId := Job(request.task, Queued, TheRequest(request), None)]
    {
      if !allowJobs {
        return None;
      }
      jobs := jobs[freshId := Job(request.task, Queued, Nothing, None)];
      jobs := jobs[freshId := jobs[freshId].(result := TheRequest(request))];
      id := Some(freshId);
    }

    method Put(id: string)
      modifies this`queue
      ensures State() == old(State()).(queue := old(queue) + [id])
    {
      queue := queue + [id];
    }

    /** `work_queue.get()` on a queue that is not empty. */
    method Take() returns (id: string)
      requires queue != []
      modifies this`queue
      ensures id == old(queue)[0] && State() == old(State()).(queue := old(queue)[1..])
    {
      id := queue[0];
      queue := queue[1..];
    }

    method BeginJob(id: string) returns (request: Option<Request>)
      requires id in jobs
      modifies this`jobs
      ensures State() == Begin(old(State()), id) && request == RequestIn(old(jobs)[id])
      ensures jobs == old(jobs)[id := old(jobs)[id].(status := Running)]
      ensures forall r :: request == Some(r) <==> old(jobs)[id].result == TheRequest(r)
    {
      jobs := jobs[id := jobs[id].(status := Running)];
      request := RequestIn(jobs[id]);
    }

    method FinishJob(id: string, output: Option<string>, error: string)
      requires id in jobs
      modifies this`jobs
      ensures State() == Finish(old(State()), id, output, error)
      ensures queue == old(queue) && jobs.Keys == old(jobs).Keys
      ensures forall other :: other in jobs && other != id ==> jobs[other] == old(jobs)[other]
      ensures jobs[id].task == old(jobs)[id].task
      ensures output.Some? ==> jobs[id].status == Completed && jobs[id].result == Output(output.value)
                               && jobs[id].error == old(jobs)[id].error
      ensures output.None? ==> jobs[id].status == Failed && jobs[id].error == Some(error)
                               && jobs[id].result == old(jobs)[id].result
    {
      match output {
        case Some(text) => jobs := jobs[id := jobs[id].(status := Completed, result := Output(text))];
        case None => jobs := jobs[id := jobs[id].(status := Failed, error := Some(error))];
      }
    }
  }

  // ---------------------------------------------------------------- the interleaved system

  /**
   The shared state, the threads, and the history: the request each id was submitted with,
   the ids inserted but not yet put, the order of puts and gets, and the runs begun.
   */
  datatype System = System(
    shared: Shared, workers: map<string, Worker>, submitted: map<string, Request>,
    pending: set<string>, puts: seq<string>, gets: seq<string>, runs: seq<string>)

  datatype Action =
    | SubmitInsert(id: string, request: Request)
    | SubmitPut(id: string)
    | StartThread
    | Get
    | Lookup
    | BeginRun
    | EndRun(output: Option<string>, error: string)
    | Die

  ghost predicate Init(s: System) {
    s == System(Shared(map[], []), map[], map[], {}, [], [], [])
  }

  ghost predicate Step(s: System, w: string, a: Action, s': System) {
    match a
    case SubmitInsert(id, request) =>
      && id !in s.shared.jobs
      && s' == s.(shared := Insert(s.shared, id, request), submitted := s.submitted[id := request],
                  pending := s.pending + {id})
    case SubmitPut(id) =>
      && id in s.pending
      && s' == s.(shared := s.shared.(queue := s.shared.queue + [id]), pending := s.pending - {id},
                  puts := s.puts + [id])
    case StartThread => w !in s.workers && s' == s.(workers := s.workers[w := Waiting])
    case Get =>
      && w in s.workers && s.workers[w].Waiting? && s.shared.queue != []
      && var id := s.shared.queue[0];
         s' == s.(shared := s.shared.(queue := s.shared.queue[1..]), workers := s.workers[w := Taken(id)],
                  gets := s.gets + [id])
    case Lookup =>
      && w in s.workers && s.workers[w].Taken?
      && var id := s.workers[w].id;
         s' == s.(workers := s.workers[w := if id in s.shared.jobs then Holding(id) else Waiting])
    case BeginRun =>
      && w in s.workers && s.workers[w].Holding? && s.workers[w].id in s.shared.jobs
      && var id := s.workers[w].id;
         && RequestIn(s.shared.jobs[id]).Some?
         && s' == s.(shared := Begin(s.shared, id), runs := s.runs + [id],
                     workers := s.workers[w := Working(id, RequestIn(s.shared.jobs[id]).value)])
    case EndRun(output, error) =>
      && w in s.workers && s.workers[w].Working? && s.workers[w].id in s.shared.jobs
      && s' == s.(shared := Finish(s.shared, s.workers[w].id, output, error), workers := s.workers[w := Waiting])
    case Die =>
      && w in s.workers && s.workers[w].Working?
      && s' == s.(workers := s.workers[w := Dead(s.workers[w].id)])
  }

  datatype Turn = Turn(worker: string, action: Action)

  ghost predicate IsRun(states: seq<System>, turns: seq<Turn>) {
    && |states| == |turns| + 1 && Init(states[0])
    && forall i :: 0 <= i < |turns| ==> Step(states[i], turns[i].worker, turns[i].action, states[i + 1])
  }

  // ---------------------------------------------------------------- where a job is

  predicate Holds(k: Worker, id: string) {
    !k.Waiting? && k.id == id
  }

  predicate Held(s: System, id: string) {
    exists w :: w in s.workers && Holds(s.workers[w], id)
  }

  predicate Terminal(j: Job) {
    j.status == Completed || j.status == Failed
  }

  /** Exactly one of: inserted and not yet queued, queued, held by a worker, or terminal. */
  predicate InOnePlace(s: System, id: string)
    requires id in s.shared.jobs
  {
    && (id in s.pending || id in s.shared.queue || Held(s, id) || Terminal(s.shared.jobs[id]))
    && (id in s.pending ==> id !in s.shared.queue && !Held(s, id) && !Terminal(s.shared.jobs[id]))
    && (id in s.shared.queue ==> !Held(s, id) && !Terminal(s.shared.jobs[id]))
    && (Held(s, id) ==> !Terminal(s.shared.jobs[id]))
  }

  ghost predicate PlacesInv(s: System) {
    && (forall id :: id in s.shared.jobs ==> InOnePlace(s, id))
    && (forall i, j :: 0 <= i < j < |s.shared.queue| ==> s.shared.queue[i] != s.shared.queue[j])
    && (forall v, w, id :: v in s.workers && w in s.workers && Holds(s.workers[v], id) && Holds(s.workers[w], id) ==>
          v == w)
    && (forall id :: id in s.pending || id in s.shared.queue || Held(s, id) ==> id in s.shared.jobs)
  }

  /** Before a job starts, and until it completes, `result` still holds its request. */
  ghost predicate RequestInv(s: System) {
    && s.submitted.Keys == s.shared.jobs.Keys
    && (forall id :: id in s.shared.jobs ==>
          var j := s.shared.jobs[id];
          && j.task == s.submitted[id].task
          && (if j.status == Completed then j.result.Output? else j.result == TheRequest(s.submitted[id])))
    && (forall w :: w in s.workers && s.workers[w].Working? ==>
          s.workers[w].id in s.submitted && s.workers[w].request == s.submitted[s.workers[w].id])
  }

  /** The runs begun so far: at most one for each job, none for a job still to start. */
  ghost predicate RunsInv(s: System) {
    && (forall i, j :: 0 <= i < j < |s.runs| ==> s.runs[i] != s.runs[j])
    && (forall id :: id in s.runs ==> id in s.shared.jobs && s.shared.jobs[id].status != Queued)
    && (forall id :: id in s.shared.jobs ==>
          (s.shared.jobs[id].status == Queued <==> id !in s.runs))
    && (forall id :: id in s.pending || id in s.shared.queue ==> id in s.shared.jobs && s.shared.jobs[id].status == Queued)
    && (forall w :: w in s.workers ==>
          ((s.workers[w].Taken? || s.workers[w].Holding?) ==>
            s.workers[w].id in s.shared.jobs && s.shared.jobs[s.workers[w].id].status == Queued)
          && (s.workers[w].Working? || s.workers[w].Dead? ==>
                s.workers[w].id in s.shared.jobs && s.shared.jobs[s.workers[w].id].status == Running))
    && s.puts == s.gets + s.shared.queue
  }

  ghost predicate Inv(s: System) {
    PlacesInv(s) && RequestInv(s) && RunsInv(s)
  }

  // ---------------------------------------------------------------- preservation

  /** A worker's own step leaves every other worker where it was. */
  lemma HeldByOthers(s: System, s': System, w: string, k: Worker, id: string)
    requires s'.workers == s.workers[w := k]
    ensures Held(s', id) <==> Holds(k, id) || exists v :: v in s.workers && v != w && Holds(s.workers[v], id)
  {
    if Holds(k, id) {
      assert w in s'.workers && Holds(s'.workers[w], id);
    }
    if v :| v in s.workers && v != w && Holds(s.workers[v], id) {
      assert v in s'.workers && Holds(s'.workers[v], id);
    }
  }

  lemma PlacesOfInsert(s: System, w: string, a: Action, s': System)
    requires PlacesInv(s) && Step(s, w, a, s') && a.SubmitInsert?
    ensures PlacesInv(s')
  {
    forall id ensures Held(s', id) <==> Held(s, id) {}
    forall id | id in s'.shared.jobs ensures InOnePlace(s', id) {
      if id != a.id {
        assert InOnePlace(s, id);
      }
    }
  }

  lemma PlacesOfPut(s: System, w: string, a: Action, s': System)
    requires PlacesInv(s) && Step(s, w, a, s') && a.SubmitPut?
    ensures PlacesInv(s')
  {
    assert InOnePlace(s, a.id);
    forall id ensures Held(s', id) <==> Held(s, id) {}
    forall id ensures id in s'.shared.queue <==> id in s.shared.queue || id == a.id {}
    forall id | id in s'.shared.jobs ensures InOnePlace(s', id) {
      assert InOnePlace(s, id);
    }
  }

  lemma OnlyHolder(s: System, w: string, id: string)
    requires PlacesInv(s) && w in s.workers && Holds(s.workers[w], id)
    ensures Held(s, id) && id in s.shared.jobs && InOnePlace(s, id)
    ensures forall v :: v in s.workers && v != w ==> !Holds(s.workers[v], id)
  {
  }

  /** A worker without a job takes one that nobody holds, or stays without. */
  lemma HeldAfterTake(s: System, w: string, k: Worker, s': System)
    requires s'.workers == s.workers[w := k] && (w in s.workers ==> s.workers[w].Waiting?)
    ensures forall x :: Held(s', x) <==> Held(s, x) || Holds(k, x)
  {
    forall x ensures Held(s', x) <==> Held(s, x) || Holds(k, x) {
      HeldByOthers(s, s', w, k, x);
    }
  }

  lemma HeldAfterMove(s: System, w: string, k: Worker, s': System)
    requires s'.workers == s.workers[w := k] && w in s.workers
    requires !s.workers[w].Waiting? && !k.Waiting? && k.id == s.workers[w].id
    ensures forall x :: Held(s', x) <==> Held(s, x)
  {
    forall x ensures Held(s', x) <==> Held(s, x) {
      HeldByOthers(s, s', w, k, x);
    }
  }

  lemma PlacesOfGet(s: System, w: string, s': System)
    requires PlacesInv(s) && Step(s, w, Get, s')
    ensures PlacesInv(s')
  {
    var q, id := s.shared.queue, s.shared.queue[0];
    assert id in q && InOnePlace(s, id);
    assert q == [id] + q[1..];
    assert id !in q[1..];
    HeldAfterTake(s, w, Taken(id), s');
    forall x | x in s'.shared.jobs ensures InOnePlace(s', x) {
      assert InOnePlace(s, x);
      assert x in q <==> x == id || x in q[1..];
    }
    forall v, u, x | v in s'.workers && u in s'.workers && Holds(s'.workers[v], x) && Holds(s'.workers[u], x)
      ensures v == u
    {
      assert x == id ==> !Held(s, x);
      assert v != w ==> Held(s, x);
      assert u != w ==> Held(s, x);
    }
  }

  lemma PlacesOfMove(s: System, w: string, k: Worker, s': System)
    requires PlacesInv(s) && w in s.workers && s'.workers == s.workers[w := k]
    requires !s.workers[w].Waiting? && !k.Waiting? && k.id == s.workers[w].id
    requires s'.pending == s.pending && s'.shared.queue == s.shared.queue
    requires s'.shared.jobs.Keys == s.shared.jobs.Keys
    requires forall x :: x in s.shared.jobs ==> (Terminal(s'.shared.jobs[x]) <==> Terminal(s.shared.jobs[x]))
    ensures PlacesInv(s')
  {
    HeldAfterMove(s, w, k, s');
    forall x | x in s'.shared.jobs ensures InOnePlace(s', x) {
      assert InOnePlace(s, x);
    }
    forall v, u, x | v in s'.workers && u in s'.workers && Holds(s'.workers[v], x) && Holds(s'.workers[u], x)
      ensures v == u
    {
      assert Holds(s.workers[v], x) && Holds(s.workers[u], x);
    }
  }

  lemma PlacesOfStart(s: System, w: string, s': System)
    requires PlacesInv(s) && Step(s, w, StartThread, s')
    ensures PlacesInv(s')
  {
    HeldAfterTake(s, w, Waiting, s');
    forall x | x in s'.shared.jobs ensures InOnePlace(s', x) {
      assert InOnePlace(s, x);
    }
  }

  lemma PlacesOfLookup(s: System, w: string, s': System)
    requires PlacesInv(s) && Step(s, w, Lookup, s')
    ensures PlacesInv(s')
  {
    OnlyHolder(s, w, s.workers[w].id);
    PlacesOfMove(s, w, Holding(s.workers[w].id), s');
  }

  lemma PlacesOfBegin(s: System, w: string, s': System)
    requires PlacesInv(s) && Step(s, w, BeginRun, s')
    ensures PlacesInv(s')
  {
    OnlyHolder(s, w, s.workers[w].id);
    PlacesOfMove(s, w, s'.workers[w], s');
  }

  lemma PlacesOfEnd(s: System, w: string, a: Action, s': System)
    requires PlacesInv(s) && Step(s, w, a, s') && a.EndRun?
    ensures PlacesInv(s')
  {
    var id := s.workers[w].id;
    OnlyHolder(s, w, id);
    forall x ensures Held(s', x) <==> Held(s, x) && x != id {
      HeldByOthers(s, s', w, Waiting, x);
    }
    forall x | x in s'.shared.jobs ensures InOnePlace(s', x) {
      assert InOnePlace(s, x);
    }
    forall v, u, x | v in s'.workers && u in s'.workers && Holds(s'.workers[v], x) && Holds(s'.workers[u], x)
      ensures v == u
    {
      assert Holds(s.workers[v], x) && Holds(s.workers[u], x);
    }
  }

  lemma PlacesStep(s: System, w: string, a: Action, s': System)
    requires PlacesInv(s) && Step(s, w, a, s')
    ensures PlacesInv(s')
  {
    match a
    case SubmitInsert(_, _) => PlacesOfInsert(s, w, a, s');
    case SubmitPut(_) => PlacesOfPut(s, w, a, s');
    case StartThread => PlacesOfStart(s, w, s');
    case Get => PlacesOfGet(s, w, s');
    case Lookup => PlacesOfLookup(s, w, s');
    case BeginRun => PlacesOfBegin(s, w, s');
    case EndRun(_, _) => PlacesOfEnd(s, w, a, s');
    case Die => PlacesOfMove(s, w, Dead(s.workers[w].id), s');
  }

  lemma RequestOfSubmit(s: System, w: string, a: Action, s': System)
    requires RequestInv(s) && Step(s, w, a, s') && (a.SubmitInsert? || a.SubmitPut?)
    ensures RequestInv(s')
  {
    assert forall v :: v in s.workers && s.workers[v].Working? ==>
        s.workers[v].id in s.shared.jobs && s'.submitted[s.workers[v].id] == s.submitted[s.workers[v].id];
  }

  lemma RequestOfThread(s: System, w: string, a: Action, s': System)
    requires RequestInv(s) && Step(s, w, a, s') && (a.StartThread? || a.Get? || a.Lookup? || a.Die?)
    ensures RequestInv(s')
  {
    assert s'.shared.jobs == s.shared.jobs && s'.submitted == s.submitted;
  }

  lemma RequestOfBegin(s: System, w: string, s': System)
    requires RequestInv(s) && RunsInv(s) && Step(s, w, BeginRun, s')
    ensures RequestInv(s')
  {
    var id := s.workers[w].id;
    assert s.shared.jobs[id].status == Queued;
    assert s'.shared.jobs.Keys == s.shared.jobs.Keys;
  }

  lemma RequestOfEnd(s: System, w: string, a: Action, s': System)
    requires RequestInv(s) && RunsInv(s) && Step(s, w, a, s') && a.EndRun?
    ensures RequestInv(s')
  {
    var id := s.workers[w].id;
    assert s.shared.jobs[id].status == Running;
    assert s'.shared.jobs.Keys == s.shared.jobs.Keys;
  }

  lemma RequestStep(s: System, w: string, a: Action, s': System)
    requires RequestInv(s) && RunsInv(s) && Step(s, w, a, s')
    ensures RequestInv(s')
  {
    match a
    case SubmitInsert(_, _) => RequestOfSubmit(s, w, a, s');
    case SubmitPut(_) => RequestOfSubmit(s, w, a, s');
    case BeginRun => RequestOfBegin(s, w, s');
    case EndRun(_, _) => RequestOfEnd(s, w, a, s');
    case StartThread => RequestOfThread(s, w, a, s');
    case Get => RequestOfThread(s, w, a, s');
    case Lookup => RequestOfThread(s, w, a, s');
    case Die => RequestOfThread(s, w, a, s');
  }

  lemma RunsOfQueue(s: System, w: string, a: Action, s': System)
    requires RunsInv(s) && Step(s, w, a, s') && (a.SubmitInsert? || a.SubmitPut? || a.Get?)
    ensures RunsInv(s')
  {
    match a
    case SubmitInsert(id, _) =>
      assert id !in s.runs;
    case SubmitPut(id) =>
      forall x ensures x in s'.shared.queue <==> x in s.shared.queue || x == id {}
    case Get =>
      var q := s.shared.queue;
      assert q == [q[0]] + q[1..] && q[0] in q;
      assert forall x :: x in q[1..] ==> x in q;
      assert s.gets + q == (s.gets + [q[0]]) + q[1..];
  }

  lemma RunsOfBegin(s: System, w: string, s': System)
    requires PlacesInv(s) && RunsInv(s) && Step(s, w, BeginRun, s')
    ensures RunsInv(s')
  {
    var id := s.workers[w].id;
    OnlyHolder(s, w, id);
    assert id !in s.runs;
    assert forall x :: x in s'.runs <==> x in s.runs || x == id;
    assert forall i :: 0 <= i < |s.runs| ==> s.runs[i] in s.runs;
    forall v | v in s.workers && v != w && !s.workers[v].Waiting? ensures s.workers[v].id != id {
      assert !Holds(s.workers[v], id);
    }
  }

  lemma RunsOfEnd(s: System, w: string, a: Action, s': System)
    requires PlacesInv(s) && RunsInv(s) && Step(s, w, a, s') && a.EndRun?
    ensures RunsInv(s')
  {
    var id := s.workers[w].id;
    OnlyHolder(s, w, id);
    forall v | v in s.workers && v != w && !s.workers[v].Waiting? ensures s.workers[v].id != id {
      assert !Holds(s.workers[v], id);
    }
  }

  lemma RunsStep(s: System, w: string, a: Action, s': System)
    requires PlacesInv(s) && RunsInv(s) && Step(s, w, a, s')
    ensures RunsInv(s')
  {
    match a
    case SubmitInsert(_, _) => RunsOfQueue(s, w, a, s');
    case SubmitPut(_) => RunsOfQueue(s, w, a, s');
    case Get => RunsOfQueue(s, w, a, s');
    case BeginRun => RunsOfBegin(s, w, s');
    case EndRun(_, _) => RunsOfEnd(s, w, a, s');
    case StartThread =>
    case Lookup =>
    case Die =>
  }

  // ---------------------------------------------------------------- over whole runs

  lemma InvStep(s: System, w: string, a: Action, s': System)
    requires Inv(s) && Step(s, w, a, s')
    ensures Inv(s')
  {
    PlacesStep(s, w, a, s');
    RequestStep(s, w, a, s');
    RunsStep(s, w, a, s');
  }

  lemma {:induction false} InvHolds(states: seq<System>, turns: seq<Turn>, i: nat)
    requires IsRun(states, turns) && i < |states|
    ensures Inv(states[i])
  {
    if i > 0 {
      InvHolds(states, turns, i - 1);
      InvStep(states[i - 1], turns[i - 1].worker, turns[i - 1].action, states[i]);
    }
  }

  /** No job is lost or duplicated, in any interleaving of submitters and workers. */
  lemma JobsAreConserved(states: seq<System>, turns: seq<Turn>, i: nat)
    requires IsRun(states, turns) && i < |states|
    ensures var s := states[i];
            && (forall id :: id in s.shared.jobs ==> InOnePlace(s, id))
            && (forall a, b :: 0 <= a < b < |s.shared.queue| ==> s.shared.queue[a] != s.shared.queue[b])
            && (forall v, w, id ::
                  v in s.workers && w in s.workers && Holds(s.workers[v], id) && Holds(s.workers[w], id) ==> v == w)
  {
    InvHolds(states, turns, i);
  }

  /** Each job runs at most once, jobs leave the queue in the order in which they were put. */
  lemma RunsAtMostOnceInOrder(states: seq<System>, turns: seq<Turn>, i: nat)
    requires IsRun(states, turns) && i < |states|
    ensures var s := states[i];
            && (forall a, b :: 0 <= a < b < |s.runs| ==> s.runs[a] != s.runs[b])
            && s.gets <= s.puts && s.puts == s.gets + s.shared.queue
            && (forall id :: id in s.shared.jobs && Terminal(s.shared.jobs[id]) ==> id in s.runs)
  {
    InvHolds(states, turns, i);
  }

  /** The reused `result` field hands every worker the request that was submitted. */
  lemma RequestReadIsTheOneSubmitted(states: seq<System>, turns: seq<Turn>, i: nat, w: string)
    requires IsRun(states, turns) && i < |turns|
    requires turns[i] == Turn(w, BeginRun)
    ensures w in states[i + 1].workers && states[i + 1].workers[w].Working?
    ensures var k := states[i + 1].workers[w];
            && k.id in states[i].submitted && k.request == states[i].submitted[k.id]
  {
    InvHolds(states, turns, i + 1);
    assert Step(states[i], w, BeginRun, states[i + 1]);
  }

  /** A worker that holds a job always finds it in the table, with its request. */
  lemma HeldJobsCanStart(states: seq<System>, turns: seq<Turn>, i: nat, w: string)
    requires IsRun(states, turns) && i < |states|
    requires w in states[i].workers && states[i].workers[w].Holding?
    ensures exists s' :: Step(states[i], w, BeginRun, s')
  {
    InvHolds(states, turns, i);
    var s, id := states[i], states[i].workers[w].id;
    assert RequestIn(s.shared.jobs[id]).Some?;
    var s' := s.(shared := Begin(s.shared, id), runs := s.runs + [id],
                 workers := s.workers[w := Working(id, RequestIn(s.shared.jobs[id]).value)]);
    assert Step(s, w, BeginRun, s');
  }
}
