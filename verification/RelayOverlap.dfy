/**
 Overlapping polls in apps/public_relay_app.py.  `next_job` selects outside any transaction and
 then updates by id without asking whether the job is still queued, so other requests may fall
 between the two.  All other requests are the atomic steps of `Relay`.
 */
module RelayOverlap {
  import opened Options
  import Relay

  type Time = Relay.Time

  /** What a poll has selected. */
  datatype Poll = Poll(node: string, id: string)

  /** The relay, the polls that have selected a job, and those of them that have updated it. */
  datatype State = State(system: Relay.System, polls: map<string, Poll>, answered: set<string>)

  datatype Action =
    | Request(event: Relay.Event, now: Time)
    | Select(poll: string, node: string, id: string)
    | Update(poll: string, now: Time)

  ghost predicate Init(s: State) {
    Relay.Init(s.system) && s.polls == map[] && s.answered == {}
  }

  ghost predicate Step(h: Relay.Hashes, s: State, a: Action, s': State) {
    match a
    case Request(e, now) =>
      !e.Polled? && Relay.Step(h, s.system, e, now, s'.system) && s' == s.(system := s'.system)
    case Select(p, node, id) =>
      p !in s.polls && Relay.IsOldest(s.system.db, node, id) && s' == s.(polls := s.polls[p := Poll(node, id)])
    case Update(p, now) =>
      && p in s.polls && p !in s.answered && s.polls[p].id in s.system.db.jobs
      && s.system.clock <= now <= s'.system.clock
      && s' == s.(system := Delivered(h, s.system, s.polls[p], now, s'.system.clock), answered := s.answered + {p})
  }

  function Delivered(h: Relay.Hashes, s: Relay.System, p: Poll, now: Time, clock: Time): Relay.System
    requires p.id in s.db.jobs
  {
    s.(db := Relay.Deliver(s.db, h, p.id, now, clock), clock := clock,
       deliveries := s.deliveries + [Relay.Delivery(p.id, p.node, s.db.jobs[p.id].createdAt)])
  }

  ghost predicate IsRun(h: Relay.Hashes, states: seq<State>, turns: seq<Action>) {
    && |states| == |turns| + 1 && Init(states[0])
    && forall i :: 0 <= i < |turns| ==> Step(h, states[i], turns[i], states[i + 1])
  }

  // ---------------------------------------------------------------- what stays

  /** A job keeps its node, and once out of the queue stays out. */
  ghost predicate JobStays(s: State, s': State, id: string) {
    id in s.system.db.jobs ==>
      && id in s'.system.db.jobs
      && s'.system.db.jobs[id].nodeId == s.system.db.jobs[id].nodeId
      && (s.system.db.jobs[id].status != Relay.Queued ==> s'.system.db.jobs[id].status != Relay.Queued)
  }

  ghost predicate PollStays(s: State, s': State, p: string) {
    && (p in s.polls ==> p in s'.polls && s'.polls[p] == s.polls[p])
    && (p in s.answered ==> p in s'.answered)
  }

  lemma StepKeeps(h: Relay.Hashes, s: State, a: Action, s': State, id: string, p: string)
    requires Step(h, s, a, s')
    ensures JobStays(s, s', id) && PollStays(s, s', p)
  {
  }

  lemma {:induction false} RunKeeps(h: Relay.Hashes, states: seq<State>, turns: seq<Action>, i: nat, j: nat,
                                    id: string, p: string)
    requires IsRun(h, states, turns) && i <= j < |states|
    ensures JobStays(states[i], states[j], id) && PollStays(states[i], states[j], p)
    decreases j
  {
    if i < j {
      RunKeeps(h, states, turns, i, j - 1, id, p);
      StepKeeps(h, states[j - 1], turns[j - 1], states[j], id, p);
    }
  }

  // ---------------------------------------------------------------- selecting and handing out

  predicate Selects(a: Action, p: string, node: string, id: string) {
    a == Select(p, node, id)
  }

  /** Turn `u` is the update of poll `p`, which hands out job `id`. */
  predicate HandsOut(states: seq<State>, turns: seq<Action>, u: int, p: string, id: string) {
    && 0 <= u < |turns| && u < |states| && turns[u].Update? && turns[u].poll == p
    && p in states[u].polls && states[u].polls[p].id == id
  }

  lemma {:induction false} PollWasSelected(h: Relay.Hashes, states: seq<State>, turns: seq<Action>, u: nat, p: string)
    returns (t: nat)
    requires IsRun(h, states, turns) && u < |states| && p in states[u].polls
    ensures t < u && Selects(turns[t], p, states[u].polls[p].node, states[u].polls[p].id)
    decreases u
  {
    assert Step(h, states[u - 1], turns[u - 1], states[u]);
    if p in states[u - 1].polls {
      t := PollWasSelected(h, states, turns, u - 1, p);
    } else {
      t := u - 1;
    }
  }

  lemma SelectionStays(h: Relay.Hashes, states: seq<State>, turns: seq<Action>, t: nat, u: nat, p: string,
                       node: string, id: string)
    requires IsRun(h, states, turns) && t < u < |states| && Selects(turns[t], p, node, id)
    ensures p in states[u].polls && states[u].polls[p] == Poll(node, id)
  {
    assert Step(h, states[t], turns[t], states[t + 1]);
    RunKeeps(h, states, turns, t + 1, u, id, p);
  }

  // ---------------------------------------------------------------- double delivery

  /**
   Polls `p` and `q` of one node select the same job at turns `s` and `t`, both before `p`
   updates it at turn `u`, and `q` updates it at turn `v`.
   */
  predicate Overlap(turns: seq<Action>, p: string, q: string, node: string, id: string, s: int, t: int, u: int, v: int) {
    && 0 <= s < u && 0 <= t < u < v < |turns|
    && Selects(turns[s], p, node, id) && Selects(turns[t], q, node, id)
    && turns[u].Update? && turns[u].poll == p && turns[v].Update? && turns[v].poll == q
  }

  lemma OverlapHandsOutTwice(h: Relay.Hashes, states: seq<State>, turns: seq<Action>, p: string, q: string,
                             node: string, id: string, s: int, t: int, u: int, v: int)
    requires IsRun(h, states, turns) && Overlap(turns, p, q, node, id, s, t, u, v)
    ensures HandsOut(states, turns, u, p, id) && HandsOut(states, turns, v, q, id)
  {
    SelectionStays(h, states, turns, s, u, p, node, id);
    SelectionStays(h, states, turns, t, v, q, node, id);
  }

  /** The second selection comes before the first update: afterwards the job is not queued. */
  lemma HandedOutTwiceOverlaps(h: Relay.Hashes, states: seq<State>, turns: seq<Action>, p: string, q: string,
                               id: string, u: int, v: int)
    requires IsRun(h, states, turns) && u < v
    requires HandsOut(states, turns, u, p, id) && HandsOut(states, turns, v, q, id)
    ensures exists node, s, t :: Overlap(turns, p, q, node, id, s, t, u, v)
  {
    var s := PollWasSelected(h, states, turns, u, p);
    var t := PollWasSelected(h, states, turns, v, q);
    var node := states[u].polls[p].node;
    assert Step(h, states[u], turns[u], states[u + 1]);
    assert Step(h, states[s], turns[s], states[s + 1]);
    assert Step(h, states[t], turns[t], states[t + 1]);
    if t < u {
      SameNode(h, states, turns, s, t, id);
    } else {
      assert t != u;
      RunKeeps(h, states, turns, u + 1, t, id, p);
    }
    assert Overlap(turns, p, q, node, id, s, t, u, v);
  }

  lemma SameNode(h: Relay.Hashes, states: seq<State>, turns: seq<Action>, s: nat, t: nat, id: string)
    requires IsRun(h, states, turns) && s < |turns| && t < |turns|
    requires turns[s].Select? && turns[t].Select? && turns[s].id == id && turns[t].id == id
    ensures turns[s].node == turns[t].node
  {
    assert Step(h, states[s], turns[s], states[s + 1]);
    assert Step(h, states[t], turns[t], states[t + 1]);
    if s <= t {
      RunKeeps(h, states, turns, s, t, id, "");
    } else {
      RunKeeps(h, states, turns, t, s, id, "");
    }
  }

  // ---------------------------------------------------------------- counting deliveries

  function Deliveries(ds: seq<Relay.Delivery>, id: string): nat {
    if ds == [] then 0
    else Deliveries(ds[..|ds| - 1], id) + (if ds[|ds| - 1].jobId == id then 1 else 0)
  }

  predicate HandsOutAt(states: seq<State>, turns: seq<Action>, u: int, id: string) {
    0 <= u < |turns| && turns[u].Update? && HandsOut(states, turns, u, turns[u].poll, id)
  }

  /** Some turn before `n` hands the job out; two of them do. */
  ghost predicate Once(states: seq<State>, turns: seq<Action>, n: int, id: string) {
    exists u :: u < n && HandsOutAt(states, turns, u, id)
  }

  ghost predicate Twice(states: seq<State>, turns: seq<Action>, n: int, id: string) {
    exists u, v :: u < v < n && HandsOutAt(states, turns, u, id) && HandsOutAt(states, turns, v, id)
  }

  lemma {:induction false} DeliveriesCounted(h: Relay.Hashes, states: seq<State>, turns: seq<Action>, n: nat, id: string)
    requires IsRun(h, states, turns) && n < |states|
    ensures Deliveries(states[n].system.deliveries, id) >= 1 <==> Once(states, turns, n, id)
    ensures Deliveries(states[n].system.deliveries, id) >= 2 <==> Twice(states, turns, n, id)
    decreases n
  {
    if n > 0 {
      DeliveriesCounted(h, states, turns, n - 1, id);
      DeliveriesStep(h, states[n - 1], turns[n - 1], states[n], id, HandsOutAt(states, turns, n - 1, id));
      HandsOutStep(states, turns, n, id);
    }
  }

  lemma DeliveriesStep(h: Relay.Hashes, s: State, a: Action, s': State, id: string, out: bool)
    requires Step(h, s, a, s') && (out <==> a.Update? && s.polls[a.poll].id == id)
    ensures Deliveries(s'.system.deliveries, id) == Deliveries(s.system.deliveries, id) + (if out then 1 else 0)
  {
    if a.Update? {
      var ds := s'.system.deliveries;
      assert ds[..|ds| - 1] == s.system.deliveries;
    } else {
      assert s'.system.deliveries == s.system.deliveries;
    }
  }

  lemma HandsOutStep(states: seq<State>, turns: seq<Action>, n: nat, id: string)
    requires 0 < n <= |turns|
    ensures Once(states, turns, n, id) <==> Once(states, turns, n - 1, id) || HandsOutAt(states, turns, n - 1, id)
    ensures Twice(states, turns, n, id) <==>
              Twice(states, turns, n - 1, id) || (Once(states, turns, n - 1, id) && HandsOutAt(states, turns, n - 1, id))
  {
    if Once(states, turns, n - 1, id) && HandsOutAt(states, turns, n - 1, id) {
      var u :| u < n - 1 && HandsOutAt(states, turns, u, id);
      assert u < n - 1 < n;
    }
    if u, v :| u < v < n && HandsOutAt(states, turns, u, id) && HandsOutAt(states, turns, v, id) {
      assert v == n - 1 || v < n - 1;
    }
  }

  /**
   Exactly when a job is delivered more than once: two polls of one node select it before
   either of them updates it, and both go on to update it.
   */
  lemma DeliveredTwiceExactly(h: Relay.Hashes, states: seq<State>, turns: seq<Action>, id: string)
    requires IsRun(h, states, turns)
    ensures Deliveries(states[|turns|].system.deliveries, id) >= 2 <==>
              exists p, q, node, s, t, u, v :: Overlap(turns, p, q, node, id, s, t, u, v)
  {
    DeliveriesCounted(h, states, turns, |turns|, id);
    if Twice(states, turns, |turns|, id) {
      var u, v :| u < v < |turns| && HandsOutAt(states, turns, u, id) && HandsOutAt(states, turns, v, id);
      HandedOutTwiceOverlaps(h, states, turns, turns[u].poll, turns[v].poll, id, u, v);
    }
    if p, q, node, s, t, u, v :| Overlap(turns, p, q, node, id, s, t, u, v) {
      OverlapHandsOutTwice(h, states, turns, p, q, node, id, s, t, u, v);
      assert HandsOutAt(states, turns, u, id) && HandsOutAt(states, turns, v, id);
    }
  }

  // ---------------------------------------------------------------- the input

  /** One node, one job, and two polls that have selected it. */
  lemma TwoPolls(h: Relay.Hashes) returns (states: seq<State>, turns: seq<Action>)
    ensures IsRun(h, states, turns) && |turns| == 4
    ensures turns[2] == Select("p", "n", "j") && turns[3] == Select("q", "n", "j")
    ensures var s := states[4];
            && s.polls == map["p" := Poll("n", "j"), "q" := Poll("n", "j")] && s.answered == {}
            && s.system.db.jobs.Keys == {"j"} && s.system.db.audits.Keys == {"j"}
            && s.system.db.jobs["j"].nodeId == "n" && s.system.deliveries == []
  {
    var created := Relay.Created("n", "echo", "{}", 2.0, "j");
    var r0 := Relay.System(Relay.Db({}, map[], map[]), 1.0, [], []);
    var r1 := Relay.Next(h, r0, Relay.Registered("n"));
    var r2 := Relay.Next(h, r1, created);
    var s0, s1, s2 := State(r0, map[], {}), State(r1, map[], {}), State(r2, map[], {});
    assert Relay.Step(h, r0, Relay.Registered("n"), 2.0, r1);
    assert r1.db.nodes == {"n"};
    assert Relay.Step(h, r1, created, 3.0, r2);
    assert r2.db.jobs.Keys == {"j"} && Relay.IsOldest(r2.db, "n", "j");
    var s3 := s2.(polls := s2.polls["p" := Poll("n", "j")]);
    var s4 := s3.(polls := s3.polls["q" := Poll("n", "j")]);
    states := [s0, s1, s2, s3, s4];
    turns := [Request(Relay.Registered("n"), 2.0), Request(created, 3.0), Select("p", "n", "j"), Select("q", "n", "j")];
    assert Step(h, s0, turns[0], s1);
    assert Step(h, s1, turns[1], s2);
    assert Step(h, s2, turns[2], s3);
    assert Step(h, s3, turns[3], s4);
  }

  lemma OneMoreTurn(h: Relay.Hashes, states: seq<State>, turns: seq<Action>, a: Action, s': State)
    requires IsRun(h, states, turns) && Step(h, states[|turns|], a, s')
    ensures IsRun(h, states + [s'], turns + [a])
  {
    var longer, more := states + [s'], turns + [a];
    assert forall i :: 0 <= i < |states| ==> longer[i] == states[i];
    forall i | 0 <= i < |more| ensures Step(h, longer[i], more[i], longer[i + 1]) {
      if i < |turns| {
        assert more[i] == turns[i];
      }
    }
  }

  /**
   The job is delivered to both polls; and as the node has answered the first of them in
   between, the second sets a completed job running again.
   */
  lemma DoubleDelivery(h: Relay.Hashes) returns (states: seq<State>, turns: seq<Action>)
    ensures IsRun(h, states, turns) && |turns| == 7
    ensures Overlap(turns, "p", "q", "n", "j", 2, 3, 4, 6)
    ensures Deliveries(states[7].system.deliveries, "j") >= 2
    ensures "j" in states[6].system.db.jobs && states[6].system.db.jobs["j"].status == Relay.Completed
    ensures "j" in states[7].system.db.jobs && states[7].system.db.jobs["j"].status == Relay.Running
  {
    states, turns := TwoPolls(h);
    var s4 := states[4];
    var now := s4.system.clock;
    var s5 := s4.(system := Delivered(h, s4.system, Poll("n", "j"), now, now), answered := {"p"});
    assert Step(h, s4, Update("p", now), s5);
    OneMoreTurn(h, states, turns, Update("p", now), s5);
    states, turns := states + [s5], turns + [Update("p", now)];
    var result := Relay.Submitted("n", "j", Relay.Completed, "{}", None);
    var s6 := s5.(system := Relay.Next(h, s5.system, result));
    assert Relay.Step(h, s5.system, result, s5.system.clock + 1.0, s6.system);
    OneMoreTurn(h, states, turns, Request(result, s5.system.clock + 1.0), s6);
    states, turns := states + [s6], turns + [Request(result, s5.system.clock + 1.0)];
    var later := s6.system.clock;
    var s7 := s6.(system := Delivered(h, s6.system, Poll("n", "j"), later, later), answered := {"p", "q"});
    assert s6.answered + {"q"} == s7.answered;
    assert Step(h, s6, Update("q", later), s7);
    OneMoreTurn(h, states, turns, Update("q", later), s7);
    states, turns := states + [s7], turns + [Update("q", later)];
    assert Overlap(turns, "p", "q", "n", "j", 2, 3, 4, 6);
    DeliveredTwiceExactly(h, states, turns, "j");
  }
}
