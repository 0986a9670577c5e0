/** The SQLite load (index.py, lines 331-355): every enriched class and every
    account is written with `INSERT OR REPLACE`, so a table behaves as a map
    from its primary key `numero` to the last row written under that key.
    Opening the file, creating the tables and committing are not modelled;
    the rows a table already holds when the load starts are a parameter. */
module Database {
  import opened Chart
  import opened Sections

  /** The rows of a table after `INSERT OR REPLACE` of `rows`, one after the
      other, into a table holding `table`. */
  function UpsertAll<R>(table: map<string, R>, rows: seq<R>, key: R -> string): map<string, R>
    decreases |rows|
  {
    if rows == [] then table
    else UpsertAll(table, rows[..|rows| - 1], key)[key(rows[|rows| - 1]) := rows[|rows| - 1]]
  }

  /** After the load a key is present exactly when it was present before or
      some written row carries it. */
  lemma {:induction false} UpsertKeys<R>(table: map<string, R>, rows: seq<R>, key: R -> string, k: string)
    ensures k in UpsertAll(table, rows, key)
            <==> k in table || exists i :: 0 <= i < |rows| && key(rows[i]) == k
    decreases |rows|
  {
    if rows != [] {
      var init := rows[..|rows| - 1];
      UpsertKeys(table, init, key, k);
      if exists i :: 0 <= i < |rows| && key(rows[i]) == k {
        var i :| 0 <= i < |rows| && key(rows[i]) == k;
        if i < |init| {
          assert key(init[i]) == k;
        }
      }
      if exists i :: 0 <= i < |init| && key(init[i]) == k {
        var i :| 0 <= i < |init| && key(init[i]) == k;
        assert key(rows[i]) == k;
      }
    }
  }

  /** The row a key maps to is the last written row with that key: earlier
      rows with the same `numero` are replaced, not kept. */
  lemma {:induction false} LastRowWins<R>(table: map<string, R>, rows: seq<R>, key: R -> string, i: nat)
    requires i < |rows|
    requires forall j :: i < j < |rows| ==> key(rows[j]) != key(rows[i])
    ensures key(rows[i]) in UpsertAll(table, rows, key)
    ensures UpsertAll(table, rows, key)[key(rows[i])] == rows[i]
    decreases |rows|
  {
    if i < |rows| - 1 {
      var init := rows[..|rows| - 1];
      forall j | i < j < |init|
        ensures key(init[j]) != key(init[i])
      {
        assert init[j] == rows[j];
      }
      LastRowWins(table, init, key, i);
      assert init[i] == rows[i];
    }
  }

  /** A key no written row carries keeps whatever the table held before. */
  lemma {:induction false} UntouchedRowKept<R>(table: map<string, R>, rows: seq<R>, key: R -> string, k: string)
    requires forall j :: 0 <= j < |rows| ==> key(rows[j]) != k
    ensures k in UpsertAll(table, rows, key) <==> k in table
    ensures k in table ==> UpsertAll(table, rows, key)[k] == table[k]
    decreases |rows|
  {
    if rows != [] {
      var init := rows[..|rows| - 1];
      forall j | 0 <= j < |init|
        ensures key(init[j]) != k
      {
        assert init[j] == rows[j];
      }
      UntouchedRowKept(table, init, key, k);
    }
  }

  /** Loading rows with pairwise distinct keys into an empty table stores
      each of them: the table has as many rows as were written. */
  lemma {:induction false} DistinctKeysAllStored<R>(rows: seq<R>, key: R -> string)
    requires forall i, j :: 0 <= i < j < |rows| ==> key(rows[i]) != key(rows[j])
    ensures |UpsertAll(map[], rows, key)| == |rows|
    decreases |rows|
  {
    if rows != [] {
      var init := rows[..|rows| - 1];
      var last := rows[|rows| - 1];
      forall i, j | 0 <= i < j < |init|
        ensures key(init[i]) != key(init[j])
      {
        assert init[i] == rows[i] && init[j] == rows[j];
      }
      DistinctKeysAllStored(init, key);
      forall j | 0 <= j < |init|
        ensures key(init[j]) != key(last)
      {
        assert init[j] == rows[j];
      }
      UntouchedRowKept(map[], init, key, key(last));
    }
  }

  /** The primary key of the `classes` table. */
  function ClassKey(c: ClasseEnrichie): string {
    c.numero
  }

  /** The primary key of the `comptes` table. */
  function CompteKey(c: Compte): string {
    c.numero
  }

  /** The two tables of the database file. */
  class Store {
    var classes: map<string, ClasseEnrichie>
    var comptes: map<string, Compte>

    /** A database file holding the given rows. */
    constructor(classes0: map<string, ClasseEnrichie>, comptes0: map<string, Compte>)
      ensures classes == classes0 && comptes == comptes0
    {
      classes := classes0;
      comptes := comptes0;
    }

    /** The loop over the enriched classes: one `INSERT OR REPLACE INTO
        classes` per record. The `comptes` table is left as it is. */
    method InsertClasses(rows: seq<ClasseEnrichie>)
      modifies this
      ensures classes == UpsertAll(old(classes), rows, ClassKey)
      ensures comptes == old(comptes)
    {
      for n := 0 to |rows|
        invariant classes == UpsertAll(old(classes), rows[..n], ClassKey)
        invariant comptes == old(comptes)
      {
        assert rows[..n + 1][..n] == rows[..n];
        var classe := rows[n];
        classes := classes[classe.numero := classe];
      }
      assert rows[..|rows|] == rows;
    }

    /** The loop over the accounts: one `INSERT OR REPLACE INTO comptes` per
        record. The `classes` table is left as it is. */
    method InsertComptes(rows: seq<Compte>)
      modifies this
      ensures comptes == UpsertAll(old(comptes), rows, CompteKey)
      ensures classes == old(classes)
    {
      for n := 0 to |rows|
        invariant comptes == UpsertAll(old(comptes), rows[..n], CompteKey)
        invariant classes == old(classes)
      {
        assert rows[..n + 1][..n] == rows[..n];
        var compte := rows[n];
        comptes := comptes[compte.numero := compte];
      }
      assert rows[..|rows|] == rows;
    }
  }
}
