/**
 How jobs end in apps/mobile_node_agent.py, over every interleaving: a job is completed with
 the output of its one run, or failed with that run's error and its request kept, or open.
 */
module AgentResults {
  import opened Options
  import opened AgentQueue

  /** The turn ends the run of the job. */
  predicate Ends(s: System, t: Turn, id: string) {
    t.action.EndRun? && t.worker in s.workers && s.workers[t.worker].Working? && s.workers[t.worker].id == id
  }

  /** The job has not ended: no error, and its request still in place. */
  predicate Open(s: System, id: string) {
    && id in s.shared.jobs && id in s.submitted && !Terminal(s.shared.jobs[id])
    && s.shared.jobs[id].error == None && s.shared.jobs[id].result == TheRequest(s.submitted[id])
  }

  /** The job is as the end of its run says. */
  predicate IsDone(s: System, a: Action, id: string)
    requires a.EndRun?
  {
    && id in s.shared.jobs && id in s.submitted
    && var j := s.shared.jobs[id];
       match a.output
       case Some(text) => j.status == Completed && j.result == Output(text) && j.error == None
       case None => j.status == Failed && j.error == Some(a.error) && j.result == TheRequest(s.submitted[id])
  }

  // ---------------------------------------------------------------- one step

  lemma EndStep(s: System, t: Turn, s': System, id: string)
    requires Step(s, t.worker, t.action, s') && Ends(s, t, id) && Open(s, id)
    ensures IsDone(s', t.action, id)
  {
  }

  lemma OpenStays(s: System, t: Turn, s': System, id: string)
    requires Step(s, t.worker, t.action, s') && !Ends(s, t, id)
    requires id in s.shared.jobs ==> Open(s, id)
    ensures id in s'.shared.jobs ==> Open(s', id)
  {
  }

  /** What a worker holds has not ended. */
  predicate HoldsOpenJob(s: System, w: string) {
    w in s.workers && (s.workers[w].Holding? || s.workers[w].Working?) ==>
      s.workers[w].id in s.shared.jobs && !Terminal(s.shared.jobs[s.workers[w].id])
  }

  lemma HeldJobsAreOpen(s: System, w: string)
    requires Inv(s)
    ensures HoldsOpenJob(s, w) && s.submitted.Keys == s.shared.jobs.Keys
  {
  }

  /** A job that has ended is not run, and stays as it is. */
  lemma DoneStays(s: System, t: Turn, s': System, id: string)
    requires HoldsOpenJob(s, t.worker) && s.submitted.Keys == s.shared.jobs.Keys
    requires Step(s, t.worker, t.action, s') && id in s.shared.jobs && Terminal(s.shared.jobs[id])
    ensures !Ends(s, t, id)
    ensures id in s.submitted && id in s'.submitted && s'.submitted[id] == s.submitted[id]
    ensures id in s'.shared.jobs && s'.shared.jobs[id] == s.shared.jobs[id]
  {
  }

  lemma EndingJobIsRunning(s: System, t: Turn, id: string)
    requires Inv(s) && Ends(s, t, id)
    ensures id in s.shared.jobs && !Terminal(s.shared.jobs[id])
  {
  }

  // ---------------------------------------------------------------- over whole runs

  /** The one end of a job before state `i`, if it has ended. */
  ghost predicate Story(states: seq<System>, turns: seq<Turn>, i: nat, id: string)
    requires i < |states| && i <= |turns|
  {
    if id !in states[i].shared.jobs || !Terminal(states[i].shared.jobs[id]) then
      && (id in states[i].shared.jobs ==> Open(states[i], id))
      && (forall j :: 0 <= j < i ==> !Ends(states[j], turns[j], id))
    else
      exists j :: IsTheEnd(states, turns, j, i, id)
  }

  ghost predicate IsTheEnd(states: seq<System>, turns: seq<Turn>, j: int, i: int, id: string) {
    && 0 <= j < i < |states| && i <= |turns| && Ends(states[j], turns[j], id)
    && IsDone(states[i], turns[j].action, id)
    && forall k :: 0 <= k < i && Ends(states[k], turns[k], id) ==> k == j
  }

  lemma {:induction false} StoryHolds(states: seq<System>, turns: seq<Turn>, i: nat, id: string)
    requires IsRun(states, turns) && i < |states|
    ensures Story(states, turns, i, id)
  {
    if i > 0 {
      StoryHolds(states, turns, i - 1, id);
      InvHolds(states, turns, i - 1);
      StoryStep(states, turns, i, id);
    }
  }

  lemma StoryStep(states: seq<System>, turns: seq<Turn>, i: nat, id: string)
    requires 0 < i < |states| && i <= |turns| && Story(states, turns, i - 1, id) && Inv(states[i - 1])
    requires Step(states[i - 1], turns[i - 1].worker, turns[i - 1].action, states[i])
    ensures Story(states, turns, i, id)
  {
    var s, t, s' := states[i - 1], turns[i - 1], states[i];
    HeldJobsAreOpen(s, t.worker);
    if id in s.shared.jobs && Terminal(s.shared.jobs[id]) {
      DoneStays(s, t, s', id);
      var j :| IsTheEnd(states, turns, j, i - 1, id);
      assert IsTheEnd(states, turns, j, i, id);
    } else if Ends(s, t, id) {
      EndingJobIsRunning(s, t, id);
      EndStep(s, t, s', id);
      assert IsTheEnd(states, turns, i - 1, i, id);
    } else {
      OpenStays(s, t, s', id);
    }
  }

  /**
   A job is completed with an output, and without error, exactly when its run ended with that
   output.
   */
  lemma CompletedExactly(states: seq<System>, turns: seq<Turn>, i: nat, id: string, text: string)
    requires IsRun(states, turns) && i < |states| && id in states[i].shared.jobs
    ensures var j := states[i].shared.jobs[id];
            (j.status == Completed && j.result == Output(text) && j.error == None)
            <==> exists k :: 0 <= k < i && Ends(states[k], turns[k], id) && turns[k].action.output == Some(text)
  {
    StoryHolds(states, turns, i, id);
  }

  /** A job is failed, with its error and its request, exactly when its run ended with that error. */
  lemma FailedExactly(states: seq<System>, turns: seq<Turn>, i: nat, id: string, error: string)
    requires IsRun(states, turns) && i < |states| && id in states[i].shared.jobs
    ensures id in states[i].submitted
    ensures var j := states[i].shared.jobs[id];
            (j.status == Failed && j.error == Some(error) && j.result == TheRequest(states[i].submitted[id]))
            <==> exists k :: 0 <= k < i && Ends(states[k], turns[k], id) && turns[k].action == EndRun(None, error)
  {
    StoryHolds(states, turns, i, id);
  }

  /** In every state a job is open, completed or failed, and has ended at most once. */
  lemma EndsOnce(states: seq<System>, turns: seq<Turn>, i: nat, id: string, j: nat, k: nat)
    requires IsRun(states, turns) && j < i && k < i < |states|
    requires Ends(states[j], turns[j], id) && Ends(states[k], turns[k], id)
    ensures j == k && id in states[i].shared.jobs && Terminal(states[i].shared.jobs[id])
  {
    StoryHolds(states, turns, i, id);
  }
}
