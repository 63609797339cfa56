/**
 A table with a primary key, and a batch of inserts that a transaction either makes as a
 whole or gives up at the first key that is already taken.
 */
module Tables {
  import opened Options

  /** The table after the inserts, or nothing when one of them meets a taken key. */
  function InsertAll<K(==), V>(table: map<K, V>, rows: seq<(K, V)>): Option<map<K, V>> {
    if rows == [] then Some(table)
    else
      var last := rows[|rows| - 1];
      match InsertAll(table, rows[..|rows| - 1])
      case None => None
      case Some(t) => if last.0 in t then None else Some(t[last.0 := last.1])
  }

  predicate HasKey<K(==), V>(rows: seq<(K, V)>, k: K) {
    exists i :: 0 <= i < |rows| && rows[i].0 == k
  }

  /** No key is given twice, and none is in the table already. */
  ghost predicate KeysAreFree<K, V>(table: map<K, V>, rows: seq<(K, V)>) {
    && (forall i, j :: 0 <= i < j < |rows| ==> rows[i].0 != rows[j].0)
    && (forall i :: 0 <= i < |rows| ==> rows[i].0 !in table)
  }

  /** What the inserted table holds: the rows it held before, unchanged, and the new rows. */
  ghost predicate Holds<K(!new), V>(before: map<K, V>, rows: seq<(K, V)>, after: map<K, V>) {
    && (forall k :: k in after <==> k in before || HasKey(rows, k))
    && (forall k :: k in before ==> after[k] == before[k])
    && (forall i :: 0 <= i < |rows| ==> rows[i].0 in after && after[rows[i].0] == rows[i].1)
  }

  lemma {:induction false} InsertAllMeaning<K(!new), V>(table: map<K, V>, rows: seq<(K, V)>)
    ensures InsertAll(table, rows).Some? <==> KeysAreFree(table, rows)
    ensures InsertAll(table, rows).Some? ==> Holds(table, rows, InsertAll(table, rows).value)
  {
    if rows != [] {
      var init, last := rows[..|rows| - 1], rows[|rows| - 1];
      InsertAllMeaning(table, init);
      if KeysAreFree(table, init) {
        var t := InsertAll(table, init).value;
        InsertOneMore(table, init, last, t);
        assert rows == init + [last];
      } else {
        assert !KeysAreFree(table, rows);
      }
    }
  }

  lemma InsertOneMore<K(!new), V>(table: map<K, V>, init: seq<(K, V)>, last: (K, V), t: map<K, V>)
    requires KeysAreFree(table, init) && Holds(table, init, t)
    ensures KeysAreFree(table, init + [last]) <==> last.0 !in t
    ensures last.0 !in t ==> Holds(table, init + [last], t[last.0 := last.1])
  {
    var rows := init + [last];
    assert rows[|init|] == last;
    assert forall i :: 0 <= i < |init| ==> rows[i] == init[i];
    assert forall k :: HasKey(rows, k) <==> HasKey(init, k) || k == last.0;
  }

  /** The step of a loop over the batch: the next row goes in, unless its key is taken. */
  lemma {:induction false} InsertStep<K, V>(table: map<K, V>, rows: seq<(K, V)>, i: nat, t: map<K, V>)
    requires i < |rows| && InsertAll(table, rows[..i]) == Some(t)
    ensures rows[i].0 in t ==> InsertAll(table, rows) == None
    ensures rows[i].0 !in t ==> InsertAll(table, rows[..i + 1]) == Some(t[rows[i].0 := rows[i].1])
  {
    assert rows[..i + 1][..i] == rows[..i];
    if rows[i].0 in t {
      NoneStays(table, rows, i + 1);
    }
  }

  lemma {:induction false} NoneStays<K, V>(table: map<K, V>, rows: seq<(K, V)>, i: nat)
    requires i <= |rows| && InsertAll(table, rows[..i]) == None
    ensures InsertAll(table, rows) == None
    decreases |rows|
  {
    if i == |rows| {
      assert rows[..i] == rows;
    } else {
      var init := rows[..|rows| - 1];
      assert init[..i] == rows[..i];
      NoneStays(table, init, i);
    }
  }

  // ---------------------------------------------------------------- batches

  /** The rows of a batch: what is rebuilt for each listed group, under the key of the group. */
  function Batch<G, K, V>(groups: seq<G>, rebuilt: map<G, V>, key: G -> K): (rows: seq<(K, V)>)
    requires forall g :: g in groups ==> g in rebuilt
    ensures |rows| == |groups|
    ensures forall i :: 0 <= i < |rows| ==> rows[i] == (key(groups[i]), rebuilt[groups[i]])
  {
    if groups == [] then [] else [(key(groups[0]), rebuilt[groups[0]])] + Batch(groups[1..], rebuilt, key)
  }

  /** The groups are listed once each, in some order. */
  ghost predicate Lists<G(!new), V>(groups: seq<G>, rebuilt: map<G, V>) {
    && (forall g :: g in groups <==> g in rebuilt)
    && (forall i, j :: 0 <= i < j < |groups| ==> groups[i] != groups[j])
  }

  ghost predicate SharedKey<G(!new), K, V>(rebuilt: map<G, V>, key: G -> K) {
    exists a, b :: a in rebuilt && b in rebuilt && a != b && key(a) == key(b)
  }

  ghost predicate TakenKey<G(!new), K, V>(rebuilt: map<G, V>, key: G -> K, table: map<K, V>) {
    exists g :: g in rebuilt && key(g) in table
  }

  /** A batch goes in unless two of its groups share a key, or a key is taken. */
  lemma BatchConflictExactly<G(!new), K(!new), V>(groups: seq<G>, rebuilt: map<G, V>, key: G -> K, table: map<K, V>)
    requires Lists(groups, rebuilt)
    ensures InsertAll(table, Batch(groups, rebuilt, key)).Some?
            <==> !SharedKey(rebuilt, key) && !TakenKey(rebuilt, key, table)
  {
    var rows := Batch(groups, rebuilt, key);
    InsertAllMeaning(table, rows);
    KeysAreFreeExactly(groups, rebuilt, key, table, rows);
  }

  lemma KeysAreFreeExactly<G(!new), K, V>(groups: seq<G>, rebuilt: map<G, V>, key: G -> K, table: map<K, V>,
                                          rows: seq<(K, V)>)
    requires Lists(groups, rebuilt)
    requires |rows| == |groups| && forall i :: 0 <= i < |rows| ==> rows[i].0 == key(groups[i])
    ensures KeysAreFree(table, rows) <==> !SharedKey(rebuilt, key) && !TakenKey(rebuilt, key, table)
  {
    if SharedKey(rebuilt, key) {
      var a, b :| a in rebuilt && b in rebuilt && a != b && key(a) == key(b);
      var i :| 0 <= i < |groups| && groups[i] == a;
      var j :| 0 <= j < |groups| && groups[j] == b;
      assert rows[i].0 == rows[j].0 && i != j;
    }
    if TakenKey(rebuilt, key, table) {
      var g :| g in rebuilt && key(g) in table;
      var i :| 0 <= i < |groups| && groups[i] == g;
      assert rows[i].0 in table;
    }
    forall i, j | 0 <= i < j < |rows| && rows[i].0 == rows[j].0 ensures SharedKey(rebuilt, key) {
      assert groups[i] in rebuilt && groups[j] in rebuilt && groups[i] != groups[j];
    }
    forall i | 0 <= i < |rows| && rows[i].0 in table ensures TakenKey(rebuilt, key, table) {
      assert groups[i] in rebuilt;
    }
  }

  lemma BatchKeys<G(!new), K(!new), V>(groups: seq<G>, rebuilt: map<G, V>, key: G -> K)
    requires forall g :: g in groups <==> g in rebuilt
    ensures forall k :: k in KeysOf(Batch(groups, rebuilt, key)) <==> exists g :: g in rebuilt && key(g) == k
  {
    var rows := Batch(groups, rebuilt, key);
    var keys := KeysOf(rows);
    forall g | g in rebuilt ensures key(g) in keys {
      var i :| 0 <= i < |groups| && groups[i] == g;
      assert keys[i] == key(g);
    }
    forall k | k in keys ensures exists g :: g in rebuilt && key(g) == k {
      var i :| 0 <= i < |keys| && keys[i] == k;
      assert groups[i] in rebuilt && key(groups[i]) == k;
    }
  }

  /** What the table holds after a batch. */
  lemma BatchInserted<G(!new), K(!new), V>(groups: seq<G>, rebuilt: map<G, V>, key: G -> K,
                                           before: map<K, V>, after: map<K, V>)
    requires forall g :: g in groups <==> g in rebuilt
    requires InsertAll(before, Batch(groups, rebuilt, key)) == Some(after)
    ensures forall k :: k in before ==> k in after && after[k] == before[k]
    ensures forall g :: g in rebuilt ==> key(g) in after && after[key(g)] == rebuilt[g]
    ensures forall k :: k in after && k !in before ==> exists g :: g in rebuilt && key(g) == k
  {
    var rows := Batch(groups, rebuilt, key);
    InsertAllMeaning(before, rows);
    forall g | g in rebuilt ensures key(g) in after && after[key(g)] == rebuilt[g] {
      var i :| 0 <= i < |groups| && groups[i] == g;
      assert rows[i] == (key(g), rebuilt[g]);
    }
    forall k | k in after && k !in before ensures exists g :: g in rebuilt && key(g) == k {
      var i :| 0 <= i < |rows| && rows[i].0 == k;
      assert groups[i] in rebuilt;
    }
  }

  // ---------------------------------------------------------------- deleting

  function KeysOf<K, V>(rows: seq<(K, V)>): (keys: seq<K>)
    ensures |keys| == |rows| && forall i :: 0 <= i < |keys| ==> keys[i] == rows[i].0
  {
    if rows == [] then [] else [rows[0].0] + KeysOf(rows[1..])
  }

  /** The table without the rows at the given keys that satisfy the condition. */
  function Without<K, V>(table: map<K, V>, keys: seq<K>, condition: V -> bool): (t: map<K, V>) {
    map k | k in table && !(k in keys && condition(table[k])) :: table[k]
  }

  /** The step of a loop that deletes key by key. */
  lemma DeleteStep<K, V>(table: map<K, V>, keys: seq<K>, i: nat, condition: V -> bool)
    requires i < |keys|
    ensures var t := Without(table, keys[..i], condition);
            Without(table, keys[..i + 1], condition) ==
              if keys[i] in t && condition(t[keys[i]]) then t - {keys[i]} else t
  {
    assert keys[..i + 1] == keys[..i] + [keys[i]];
  }

  /** Deleting a batch that was inserted, and whose rows all satisfy the condition, undoes it. */
  lemma DeleteUndoesInsert<K(!new), V>(before: map<K, V>, rows: seq<(K, V)>, after: map<K, V>, condition: V -> bool)
    requires InsertAll(before, rows) == Some(after)
    requires forall i :: 0 <= i < |rows| ==> condition(rows[i].1)
    ensures Without(after, KeysOf(rows), condition) == before
  {
    InsertAllMeaning(before, rows);
    var keys := KeysOf(rows);
    forall k | k in after
      ensures k in keys <==> k !in before
      ensures k in keys ==> condition(after[k])
    {
      if k in keys {
        var i :| 0 <= i < |keys| && keys[i] == k;
        assert rows[i].0 == k;
      } else {
        assert !HasKey(rows, k) by {
          assert forall i :: 0 <= i < |rows| ==> keys[i] == rows[i].0;
        }
      }
    }
    var back := Without(after, keys, condition);
    assert forall k :: k in back <==> k in before;
    assert forall k :: k in before ==> back[k] == before[k];
    assert back == before;
  }

  lemma DeletionsCommute<K(!new), V>(table: map<K, V>, a: seq<K>, b: seq<K>, condition: V -> bool)
    ensures Without(Without(table, a, condition), b, condition) == Without(Without(table, b, condition), a, condition)
  {
    var ab := Without(Without(table, a, condition), b, condition);
    var ba := Without(Without(table, b, condition), a, condition);
    assert forall k :: k in ab <==> k in ba;
    assert ab == ba;
  }
}
