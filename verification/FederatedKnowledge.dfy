/**
 The knowledge table of scripts/federation_real_node.py.  Evidence is recorded once, by the
 first message whose content reproduces its digest; a revocation marks the row.  Whether
 `exchange.accept` lets a message through is arbitrary, message by message.
 */
module FederatedKnowledge {
  import opened Options

  type Digest = string

  /** A missing `evidence_id` is None; reading it raises KeyError. */
  datatype Payload =
    | Evidence(evidenceId: Option<string>, content: string, claimed: Option<Digest>)
    | Revocation(evidenceId: Option<string>)
    | Unknown

  datatype Message = Message(sender: string, payload: Payload)

  datatype RowStatus = Accepted | Revoked

  datatype Row = Row(sha: Digest, status: RowStatus, source: string)

  type Table = map<string, Row>

  datatype Reply =
    | Stopped
    | Malformed
    | ReproductionMismatch
    | EvidenceAccepted
    | EvidenceRevoked(applied: bool)
    | UnknownKind

  // ---------------------------------------------------------------- one message

  /** The message is evidence for `id` whose digest reproduces. */
  predicate Supports(h: string -> Digest, m: Message, id: string) {
    m.payload.Evidence? && m.payload.evidenceId == Some(id) && m.payload.claimed == Some(h(m.payload.content))
  }

  predicate Revokes(m: Message, id: string) {
    m.payload == Revocation(Some(id))
  }

  class Node {
    const nodeId: string
    const h: string -> Digest
    var table: Table

    constructor (nodeId: string, h: string -> Digest)
      ensures this.nodeId == nodeId && this.h == h && table == map[]
    {
      this.nodeId, this.h := nodeId, h;
      table := map[];
    }

    function Produce(content: string, evidenceId: string): (m: Message)
      ensures Supports(h, m, evidenceId) && m.sender == nodeId
      ensures m.payload == Evidence(Some(evidenceId), content, Some(h(content)))
    {
      Message(nodeId, Evidence(Some(evidenceId), content, Some(h(content))))
    }

    function Revoke(evidenceId: string): (m: Message)
      ensures Revokes(m, evidenceId) && m.sender == nodeId
    {
      Message(nodeId, Revocation(Some(evidenceId)))
    }

    /** `passes` is what `exchange.accept` decides about the message. */
    method Accept(m: Message, passes: bool) returns (reply: Reply)
      modifies this
      ensures table == Received(h, old(table), Delivery(m, passes))
      ensures !passes <==> reply == Stopped
      ensures reply == EvidenceAccepted <==> passes && exists id :: Supports(h, m, id)
      ensures reply.EvidenceRevoked? <==> passes && exists id :: Revokes(m, id)
      ensures reply.EvidenceRevoked? ==> reply.applied == (m.payload.evidenceId.value in old(table))
      ensures reply == ReproductionMismatch <==>
                passes && m.payload.Evidence? && m.payload.claimed != Some(h(m.payload.content))
      ensures reply == UnknownKind <==> passes && m.payload.Unknown?
      ensures reply == Malformed <==>
                passes && ((m.payload.Evidence? && m.payload.claimed == Some(h(m.payload.content))
                            && m.payload.evidenceId.None?) || m.payload == Revocation(None))
    {
      if !passes {
        return Stopped;
      }
      match m.payload {
        case Evidence(evidenceId, content, claimed) =>
          var reproduced := h(content);
          if Some(reproduced) != claimed {
            return ReproductionMismatch;
          }
          if evidenceId.None? {
            return Malformed;
          }
          assert Supports(h, m, evidenceId.value);
          if evidenceId.value !in table {
            table := table[evidenceId.value := Row(reproduced, Accepted, m.sender)];
          }
          reply := EvidenceAccepted;
        case Revocation(evidenceId) =>
          if evidenceId.None? {
            return Malformed;
          }
          assert Revokes(m, evidenceId.value);
          reply := EvidenceRevoked(evidenceId.value in table);
          if evidenceId.value in table {
            table := table[evidenceId.value := table[evidenceId.value].(status := Revoked)];
          }
        case Unknown =>
          reply := UnknownKind;
      }
    }
  }

  datatype Delivery = Delivery(message: Message, passes: bool)

  function Received(h: string -> Digest, table: Table, d: Delivery): Table {
    if !d.passes then table
    else
      match d.message.payload
      case Evidence(Some(id), content, claimed) =>
        if claimed != Some(h(content)) || id in table then table
        else table[id := Row(h(content), Accepted, d.message.sender)]
      case Revocation(Some(id)) =>
        if id in table then table[id := table[id].(status := Revoked)] else table
      case _ => table
  }

  function Deliver(h: string -> Digest, table: Table, ds: seq<Delivery>): Table {
    if ds == [] then table else Received(h, Deliver(h, table, ds[..|ds| - 1]), ds[|ds| - 1])
  }

  // ---------------------------------------------------------------- rows only advance

  /** Absent, accepted, revoked: never backwards, and never another digest or source. */
  ghost predicate Advances(before: Table, after: Table) {
    forall id :: id in before ==>
      id in after && after[id].sha == before[id].sha && after[id].source == before[id].source
      && (before[id].status == Revoked ==> after[id].status == Revoked)
  }

  lemma {:induction false} RowsOnlyAdvance(h: string -> Digest, table: Table, ds: seq<Delivery>)
    ensures Advances(table, Deliver(h, table, ds))
  {
    if ds != [] {
      RowsOnlyAdvance(h, table, ds[..|ds| - 1]);
    }
  }

  /** A row appears as accepted, never as revoked. */
  lemma RowsAppearAccepted(h: string -> Digest, table: Table, d: Delivery, id: string)
    requires id !in table && id in Received(h, table, d)
    ensures Received(h, table, d)[id].status == Accepted
    ensures d.passes && Supports(h, d.message, id)
  {
  }

  // ---------------------------------------------------------------- what a table contains

  predicate SupportsAt(h: string -> Digest, ds: seq<Delivery>, id: string, i: int) {
    0 <= i < |ds| && ds[i].passes && Supports(h, ds[i].message, id)
  }

  predicate RevokesAt(ds: seq<Delivery>, id: string, i: int) {
    0 <= i < |ds| && ds[i].passes && Revokes(ds[i].message, id)
  }

  /** `i` is the delivery that created the row of `id`. */
  ghost predicate IsFirst(h: string -> Digest, ds: seq<Delivery>, id: string, i: int) {
    SupportsAt(h, ds, id, i) && forall k :: SupportsAt(h, ds, id, k) ==> i <= k
  }

  /** The row of `id` is that of its first evidence, revoked if a revocation came later. */
  ghost predicate Explains(h: string -> Digest, ds: seq<Delivery>, id: string, table: Table) {
    && (id in table <==> exists i :: IsFirst(h, ds, id, i))
    && forall i :: IsFirst(h, ds, id, i) ==>
         && table[id].sha == h(ds[i].message.payload.content)
         && table[id].source == ds[i].message.sender
         && (table[id].status == Revoked <==> exists j :: i < j && RevokesAt(ds, id, j))
  }

  lemma ExplainsOneMore(h: string -> Digest, ds: seq<Delivery>, d: Delivery, id: string, table: Table)
    requires Explains(h, ds, id, table)
    ensures Explains(h, ds + [d], id, Received(h, table, d))
  {
    OneMoreDelivery(h, ds, d, id);
    if id in table {
      ExplainsKnown(h, ds, d, id, table);
    } else {
      NoSupport(h, ds, id);
      if d.passes && Supports(h, d.message, id) {
        assert IsFirst(h, ds + [d], id, |ds|);
        assert forall i :: IsFirst(h, ds + [d], id, i) ==> i == |ds|;
      }
    }
  }

  lemma OneMoreDelivery(h: string -> Digest, ds: seq<Delivery>, d: Delivery, id: string)
    ensures forall k :: SupportsAt(h, ds + [d], id, k) <==>
              SupportsAt(h, ds, id, k) || (k == |ds| && d.passes && Supports(h, d.message, id))
    ensures forall k :: RevokesAt(ds + [d], id, k) <==>
              RevokesAt(ds, id, k) || (k == |ds| && d.passes && Revokes(d.message, id))
  {
  }

  lemma ExplainsKnown(h: string -> Digest, ds: seq<Delivery>, d: Delivery, id: string, table: Table)
    requires Explains(h, ds, id, table) && id in table
    ensures Explains(h, ds + [d], id, Received(h, table, d))
  {
    var all := ds + [d];
    OneMoreDelivery(h, ds, d, id);
    var f :| IsFirst(h, ds, id, f);
    assert IsFirst(h, all, id, f);
    assert forall i :: IsFirst(h, all, id, i) ==> i == f;
    if d.passes && Revokes(d.message, id) {
      assert RevokesAt(all, id, |ds|);
    } else if exists j :: f < j && RevokesAt(ds, id, j) {
      var j :| f < j && RevokesAt(ds, id, j);
      assert RevokesAt(all, id, j);
    }
  }

  lemma NoSupport(h: string -> Digest, ds: seq<Delivery>, id: string)
    requires !exists i :: IsFirst(h, ds, id, i)
    ensures forall i :: !SupportsAt(h, ds, id, i)
  {
    if i :| SupportsAt(h, ds, id, i) {
      var k := FirstFrom(h, ds, id, i);
    }
  }

  lemma {:induction false} FirstFrom(h: string -> Digest, ds: seq<Delivery>, id: string, i: int) returns (k: int)
    requires SupportsAt(h, ds, id, i)
    ensures IsFirst(h, ds, id, k) && k <= i
    decreases i
  {
    if j :| SupportsAt(h, ds, id, j) && j < i {
      k := FirstFrom(h, ds, id, j);
    } else {
      k := i;
    }
  }

  /** What any sequence of deliveries, in any order and with any repetitions, leaves behind. */
  lemma {:induction false} TableIsExplained(h: string -> Digest, ds: seq<Delivery>, id: string)
    ensures Explains(h, ds, id, Deliver(h, map[], ds))
  {
    if ds != [] {
      var init, last := ds[..|ds| - 1], ds[|ds| - 1];
      TableIsExplained(h, init, id);
      ExplainsOneMore(h, init, last, id, Deliver(h, map[], init));
      DeliverOneMore(h, ds, init, last);
    } else {
      NothingExplained(h, id);
    }
  }

  lemma DeliverOneMore(h: string -> Digest, ds: seq<Delivery>, init: seq<Delivery>, last: Delivery)
    requires ds != [] && init == ds[..|ds| - 1] && last == ds[|ds| - 1]
    ensures ds == init + [last]
    ensures Deliver(h, map[], ds) == Received(h, Deliver(h, map[], init), last)
  {
  }

  lemma NothingExplained(h: string -> Digest, id: string)
    ensures Explains(h, [], id, map[])
  {
  }

  // ---------------------------------------------------------------- convergence

  /** Both deliveries let the same set of messages through. */
  ghost predicate SameMessages(a: seq<Delivery>, b: seq<Delivery>) {
    forall m :: Delivery(m, true) in a <==> Delivery(m, true) in b
  }

  /** All valid evidence for an id has one content and one sender. */
  ghost predicate OneVersion(h: string -> Digest, ds: seq<Delivery>) {
    forall id, i, j :: SupportsAt(h, ds, id, i) && SupportsAt(h, ds, id, j) ==>
      ds[i].message.payload.content == ds[j].message.payload.content && ds[i].message.sender == ds[j].message.sender
  }

  /** A revocation of `id` arrives after some evidence for it. */
  ghost predicate LateRevocation(h: string -> Digest, ds: seq<Delivery>, id: string) {
    exists i, j :: i < j && SupportsAt(h, ds, id, i) && RevokesAt(ds, id, j)
  }

  /** Every revocation of an id that has evidence comes after some of that evidence. */
  ghost predicate NoEarlyRevocation(h: string -> Digest, ds: seq<Delivery>) {
    forall id, i, j :: SupportsAt(h, ds, id, i) && RevokesAt(ds, id, j) ==>
      exists k :: k < j && SupportsAt(h, ds, id, k)
  }

  lemma SupportMoves(h: string -> Digest, a: seq<Delivery>, b: seq<Delivery>, id: string, i: int) returns (j: int)
    requires SameMessages(a, b) && SupportsAt(h, a, id, i)
    ensures SupportsAt(h, b, id, j) && b[j].message == a[i].message
  {
    assert a[i] == Delivery(a[i].message, true) && a[i] in a;
    j :| 0 <= j < |b| && b[j] == a[i];
  }

  lemma RevocationMoves(a: seq<Delivery>, b: seq<Delivery>, id: string, i: int) returns (j: int)
    requires SameMessages(a, b) && RevokesAt(a, id, i)
    ensures RevokesAt(b, id, j)
  {
    assert a[i] == Delivery(a[i].message, true) && a[i] in a;
    j :| 0 <= j < |b| && b[j] == a[i];
  }

  lemma StatusIsLateRevocation(h: string -> Digest, ds: seq<Delivery>, id: string, i: int)
    requires IsFirst(h, ds, id, i)
    ensures id in Deliver(h, map[], ds)
    ensures Deliver(h, map[], ds)[id].status == Revoked <==> LateRevocation(h, ds, id)
  {
    TableIsExplained(h, ds, id);
    if exists j :: i < j && RevokesAt(ds, id, j) {
      var j :| i < j && RevokesAt(ds, id, j);
      assert LateRevocation(h, ds, id);
    }
    if LateRevocation(h, ds, id) {
      var k, j :| k < j && SupportsAt(h, ds, id, k) && RevokesAt(ds, id, j);
      assert i < j;
    }
  }

  /** The row of an id is fixed by its first evidence and by whether a revocation came late. */
  lemma RowOf(h: string -> Digest, ds: seq<Delivery>, id: string, i: int)
    requires IsFirst(h, ds, id, i)
    ensures id in Deliver(h, map[], ds)
    ensures Deliver(h, map[], ds)[id] ==
            Row(h(ds[i].message.payload.content), if LateRevocation(h, ds, id) then Revoked else Accepted,
                ds[i].message.sender)
  {
    TableIsExplained(h, ds, id);
    StatusIsLateRevocation(h, ds, id, i);
  }

  /** For one id, first evidence in `a` and `b` of the same digest and sender, and the same late revocation. */
  ghost predicate SameFirst(h: string -> Digest, a: seq<Delivery>, b: seq<Delivery>, id: string) {
    forall i, j :: IsFirst(h, a, id, i) && IsFirst(h, b, id, j) ==>
      && h(a[i].message.payload.content) == h(b[j].message.payload.content)
      && a[i].message.sender == b[j].message.sender
      && (LateRevocation(h, a, id) <==> LateRevocation(h, b, id))
  }

  lemma SameMessagesSupport(h: string -> Digest, a: seq<Delivery>, b: seq<Delivery>, id: string)
    requires SameMessages(a, b) && id in Deliver(h, map[], a)
    ensures id in Deliver(h, map[], b)
  {
    TableIsExplained(h, a, id);
    var i :| IsFirst(h, a, id, i);
    var j := SupportMoves(h, a, b, id, i);
    var f := FirstFrom(h, b, id, j);
    TableIsExplained(h, b, id);
  }

  lemma SameRowExactly(h: string -> Digest, a: seq<Delivery>, b: seq<Delivery>, id: string)
    requires id in Deliver(h, map[], a) && id in Deliver(h, map[], b)
    ensures Deliver(h, map[], a)[id] == Deliver(h, map[], b)[id] <==> SameFirst(h, a, b, id)
  {
    TableIsExplained(h, a, id);
    TableIsExplained(h, b, id);
    var i :| IsFirst(h, a, id, i);
    var j :| IsFirst(h, b, id, j);
    RowOf(h, a, id, i);
    RowOf(h, b, id, j);
    assert forall k :: IsFirst(h, a, id, k) ==> k == i;
    assert forall k :: IsFirst(h, b, id, k) ==> k == j;
  }

  lemma NoFirst(h: string -> Digest, ds: seq<Delivery>, id: string)
    requires id !in Deliver(h, map[], ds)
    ensures forall i :: !IsFirst(h, ds, id, i)
    ensures !LateRevocation(h, ds, id)
  {
    TableIsExplained(h, ds, id);
    NoSupport(h, ds, id);
  }

  /**
   Exactly when two deliveries of the same messages end in the same table: for every id their
   first evidence agrees in digest and sender, and a revocation comes after evidence in both
   or in neither.
   */
  lemma ConvergenceExactly(h: string -> Digest, a: seq<Delivery>, b: seq<Delivery>)
    requires SameMessages(a, b)
    ensures Deliver(h, map[], a) == Deliver(h, map[], b) <==> forall id :: SameFirst(h, a, b, id)
  {
    var ta, tb := Deliver(h, map[], a), Deliver(h, map[], b);
    forall id ensures id in ta <==> id in tb {
      if id in ta { SameMessagesSupport(h, a, b, id); }
      if id in tb { SameMessagesSupport(h, b, a, id); }
    }
    forall id | id in ta ensures ta[id] == tb[id] <==> SameFirst(h, a, b, id) {
      SameRowExactly(h, a, b, id);
    }
    forall id | id !in ta ensures SameFirst(h, a, b, id) {
      NoFirst(h, a, id);
    }
  }

  /** With one version of each evidence, only the revocations can tell two deliveries apart. */
  lemma OneVersionConvergence(h: string -> Digest, a: seq<Delivery>, b: seq<Delivery>)
    requires SameMessages(a, b) && OneVersion(h, a)
    ensures Deliver(h, map[], a) == Deliver(h, map[], b) <==>
            forall id :: LateRevocation(h, a, id) <==> LateRevocation(h, b, id)
  {
    ConvergenceExactly(h, a, b);
    forall id ensures SameFirst(h, a, b, id) <==> (LateRevocation(h, a, id) <==> LateRevocation(h, b, id)) {
      OneVersionFirst(h, a, b, id);
    }
  }

  lemma OneVersionFirst(h: string -> Digest, a: seq<Delivery>, b: seq<Delivery>, id: string)
    requires SameMessages(a, b) && OneVersion(h, a)
    ensures SameFirst(h, a, b, id) <==> (LateRevocation(h, a, id) <==> LateRevocation(h, b, id))
  {
    if id in Deliver(h, map[], a) {
      SameMessagesSupport(h, a, b, id);
      TableIsExplained(h, a, id);
      TableIsExplained(h, b, id);
      var i :| IsFirst(h, a, id, i);
      var j :| IsFirst(h, b, id, j);
      forall k, l | IsFirst(h, a, id, k) && IsFirst(h, b, id, l)
        ensures a[k].message.payload.content == b[l].message.payload.content && a[k].message.sender == b[l].message.sender
      {
        var l' := SupportMoves(h, b, a, id, l);
      }
    } else {
      NoFirst(h, a, id);
      if id in Deliver(h, map[], b) {
        SameMessagesSupport(h, b, a, id);
      }
      NoFirst(h, b, id);
    }
  }

  lemma LateRevocationMoves(h: string -> Digest, a: seq<Delivery>, b: seq<Delivery>, id: string)
    requires SameMessages(a, b) && NoEarlyRevocation(h, b) && LateRevocation(h, a, id)
    ensures LateRevocation(h, b, id)
  {
    var i, j :| i < j && SupportsAt(h, a, id, i) && RevokesAt(a, id, j);
    var i' := SupportMoves(h, a, b, id, i);
    var j' := RevocationMoves(a, b, id, j);
    var k :| k < j' && SupportsAt(h, b, id, k);
  }

  /** Order and repetition do not matter, as long as no revocation precedes its evidence. */
  lemma Convergence(h: string -> Digest, a: seq<Delivery>, b: seq<Delivery>)
    requires SameMessages(a, b) && OneVersion(h, a)
    requires NoEarlyRevocation(h, a) && NoEarlyRevocation(h, b)
    ensures Deliver(h, map[], a) == Deliver(h, map[], b)
  {
    forall id ensures LateRevocation(h, a, id) <==> LateRevocation(h, b, id) {
      if LateRevocation(h, a, id) { LateRevocationMoves(h, a, b, id); }
      if LateRevocation(h, b, id) { LateRevocationMoves(h, b, a, id); }
    }
    OneVersionConvergence(h, a, b);
  }

  /** Two senders of one evidence: the node keeps whichever comes first. */
  lemma TwoVersionsDiverge(h: string -> Digest)
    ensures var fromA := Delivery(Message("a", Evidence(Some("e"), "x", Some(h("x")))), true);
            var fromB := Delivery(Message("b", Evidence(Some("e"), "x", Some(h("x")))), true);
            && SameMessages([fromA, fromB], [fromB, fromA])
            && Deliver(h, map[], [fromA, fromB]) == map["e" := Row(h("x"), Accepted, "a")]
            && Deliver(h, map[], [fromB, fromA]) == map["e" := Row(h("x"), Accepted, "b")]
  {
    var fromA := Delivery(Message("a", Evidence(Some("e"), "x", Some(h("x")))), true);
    var fromB := Delivery(Message("b", Evidence(Some("e"), "x", Some(h("x")))), true);
    assert [fromA, fromB][..1] == [fromA] && [fromB, fromA][..1] == [fromB];
    assert Deliver(h, map[], [fromA]) == map["e" := Row(h("x"), Accepted, "a")];
    assert Deliver(h, map[], [fromB]) == map["e" := Row(h("x"), Accepted, "b")];
  }

  /** A revocation that overtakes its evidence is lost: the node keeps the evidence. */
  lemma EarlyRevocationIsLost(h: string -> Digest)
    ensures var evidence := Delivery(Message("a", Evidence(Some("e"), "x", Some(h("x")))), true);
            var revocation := Delivery(Message("a", Revocation(Some("e"))), true);
            && Deliver(h, map[], [evidence, revocation]) == map["e" := Row(h("x"), Revoked, "a")]
            && Deliver(h, map[], [revocation, evidence]) == map["e" := Row(h("x"), Accepted, "a")]
  {
    var evidence := Delivery(Message("a", Evidence(Some("e"), "x", Some(h("x")))), true);
    var revocation := Delivery(Message("a", Revocation(Some("e"))), true);
    assert [evidence, revocation][..1] == [evidence] && [revocation, evidence][..1] == [revocation];
    assert Deliver(h, map[], [evidence]) == map["e" := Row(h("x"), Accepted, "a")];
    assert Deliver(h, map[], [revocation]) == map[];
  }
}
