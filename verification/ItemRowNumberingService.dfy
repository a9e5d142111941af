/** backend/src/files/item-row-numbering.service.ts as it runs: every `await` lets other
    requests commit transactions of their own. `script` holds what they commit, one entry for
    each time this request waits; it is arbitrary, so the contracts cover every interleaving.
    Writers hold the lock of the ACP row, hence nothing happens between the statements of one
    critical section. */
module ItemRowNumberingServices {
  import opened ItemRowNumbering
  import opened Outcomes
  import opened Sorting

  /** How many commits of others are still to come. */
  ghost function Commits(script: seq<seq<Write>>): nat {
    if script == [] then 0 else |script[0]| + Commits(script[1..])
  }

  /** At some moment in between not all of the rows had numbers. */
  ghost predicate SomeIncomplete(h: seq<Version>, from: nat, to: nat, rows: seq<Row>) {
    exists m :: from <= m < to && m < |h| && !AllNumbered(h[m].table, rows)
  }

  lemma StillIncomplete(h: seq<Version>, h': seq<Version>, from: nat, m: nat, to: nat, rows: seq<Row>)
    requires h <= h' && from <= m < |h| && m < to && !AllNumbered(h[m].table, rows)
    ensures SomeIncomplete(h', from, to, rows)
  {
    assert h'[m] == h[m];
  }

  lemma SomewhatEarlier(h: seq<Version>, from: nat, m: nat, to: nat, rows: seq<Row>)
    requires SomeIncomplete(h, m, to, rows) && from <= m
    ensures SomeIncomplete(h, from, to, rows)
  {
  }

  class ItemRowNumberingService {
    const collate: (string, string) -> int
    const revisionOf: Table -> string
    var table: Table
    var script: seq<seq<Write>>
    ghost var history: seq<Version>

    ghost predicate Valid() reads this {
      && Collation(collate)
      && History(history, RowLe(collate))
      && history[|history| - 1].table == table
    }

    constructor (collate: (string, string) -> int, revisionOf: Table -> string, script: seq<seq<Write>>)
      requires Collation(collate)
      ensures Valid() && table == map[] && history == [Version(map[], None)]
      ensures this.collate == collate && this.revisionOf == revisionOf && this.script == script
    {
      this.collate, this.revisionOf, this.script := collate, revisionOf, script;
      table := map[];
      history := [Version(map[], None)];
    }

    /** The index of the present table in the history. */
    ghost function Now(): nat
      requires Valid()
      reads this
    {
      |history| - 1
    }

    /** The commits there have been and those of others that are to come; only an own commit adds to
        them. */
    ghost function Total(): nat
      reads this
    {
      |history| + Commits(script)
    }

    method Await()
      requires Valid()
      modifies this
      ensures Valid() && old(history) <= history && Total() == old(Total())
    {
      if script == [] { return; }
      var turn := script[0];
      script := script[1..];
      for i := 0 to |turn|
        invariant Valid() && old(history) <= history
        invariant |history| == |old(history)| + i && script == old(script)[1..]
      {
        var rows := NormalizedRowsOf(turn[i].rows);
        if turn[i].AssignRows? {
          var _ := InsertMissing(rows, turn[i].rows);
        } else {
          var _ := ReplaceAll(rows, turn[i].rows);
        }
      }
    }

    /** `normalizeRows`: the loop over a map of the rows seen so far. */
    method NormalizedRowsOf(rows: seq<Row>) returns (unique: seq<Row>)
      ensures unique == NormalizeRows(rows)
    {
      unique := [];
      for i := 0 to |rows|
        invariant unique == NormalizeRows(rows[..i])
      {
        assert rows[..i + 1][..i] == rows[..i];
        var key := Text.Trim(rows[i].rowKey);
        if key != "" && !HasKey(unique, key) {
          unique := unique + [rows[i].(rowKey := key)];
        }
      }
      assert rows[..|rows|] == rows;
    }

    /** `findAssignedNumbers`: one query. */
    method FindAssignedNumbers(rows: seq<Row>) returns (numbers: Table)
      ensures numbers == Lookup(table, rows)
    {
      numbers := map[];
      for i := 0 to |rows|
        invariant numbers == Lookup(table, rows[..i])
      {
        LookupStep(table, rows, i);
        if rows[i].rowKey in table {
          numbers := numbers[rows[i].rowKey := table[rows[i].rowKey]];
        }
      }
      assert rows[..|rows|] == rows;
    }

    /** `maximum("rowNumber") || 0` */
    method Maximum() returns (max: nat)
      ensures max == MaxNumber(table)
    {
      max := 0;
      var keys := table.Keys;
      while keys != {}
        invariant keys <= table.Keys
        invariant forall k :: k in table && k !in keys ==> table[k] <= max
        invariant max == 0 || exists k :: k in table && table[k] == max
        decreases |keys|
      {
        var k :| k in keys;
        if table[k] > max { max := table[k]; }
        keys := keys - {k};
      }
    }

    /** The numbers of the missing rows are inserted. */
    method WriteMissing(rows: seq<Row>) returns (numbers: Table)
      modifies this`table
      ensures table == old(table) + NumberFrom(Sort(Missing(Lookup(old(table), rows), rows), RowLe(collate)), MaxNumber(old(table)))
      ensures numbers == Lookup(old(table), rows) + NumberFrom(Sort(Missing(Lookup(old(table), rows), rows), RowLe(collate)), MaxNumber(old(table)))
    {
      numbers := FindAssignedNumbers(rows);
      var missingRows := Sort(Missing(numbers, rows), RowLe(collate));
      if missingRows != [] {
        var maximum := Maximum();
        var created := NumberRows(missingRows, maximum);
        numbers := numbers + created;
        table := table + created;
      }
    }

    /** The critical section of `assignNumbersInternal`. */
    method InsertMissing(rows: seq<Row>, ghost requested: seq<Row>) returns (numbers: Table)
      requires Valid() && rows == NormalizeRows(requested)
      modifies this`table, this`history
      ensures Valid() && table == Assigned(old(table), rows, RowLe(collate))
      ensures history == old(history) + [Version(table, Some(AssignRows(requested)))]
      ensures numbers == Lookup(table, rows) && AllNumbered(table, rows)
    {
      InsertMissingFacts(table, rows, requested, collate);
      HistoryGrows(history, AssignRows(requested), RowLe(collate));
      numbers := WriteMissing(rows);
      history := history + [Version(table, Some(AssignRows(requested)))];
    }

    /** The loop that hands out the numbers above `start`. */
    method NumberRows(rows: seq<Row>, start: nat) returns (created: Table)
      ensures created == NumberFrom(rows, start)
    {
      created := map[];
      var nextNumber := start;
      for i := 0 to |rows|
        invariant nextNumber == start + i && created == NumberFrom(rows[..i], start)
      {
        assert rows[..i + 1][..i] == rows[..i];
        nextNumber := nextNumber + 1;
        created := created[rows[i].rowKey := nextNumber];
      }
      assert rows[..|rows|] == rows;
    }

    /** A look at the table without the lock. */
    method LookUp(rows: seq<Row>) returns (numbers: Table, complete: bool)
      requires Valid()
      modifies this
      ensures Valid() && old(history) <= history && Total() == old(Total())
      ensures numbers == Lookup(table, rows) && (complete <==> AllNumbered(table, rows))
    {
      Await();
      numbers := FindAssignedNumbers(rows);
      MissingFromLookup(table, rows);
      complete := AllNumbered(numbers, rows);
    }

    /** The transaction: the lock is waited for. */
    method AssignUnderLock(rows: seq<Row>, ghost requested: seq<Row>) returns (numbers: Table)
      requires Valid() && rows == NormalizeRows(requested) && !AllNumbered(table, rows)
      modifies this
      ensures Valid() && old(history) <= history && Total() == old(Total()) + 1 && Commits(script) <= Commits(old(script))
      ensures AllNumbered(table, rows) && numbers == Lookup(table, rows)
      ensures history[Now()].commit == Some(AssignRows(requested)) && old(Now()) < Now()
      ensures SomeIncomplete(history, old(Now()), Now(), rows)
    {
      ghost var before, looked := history, Now();
      Await();
      numbers := InsertMissing(rows, requested);
      StillIncomplete(before, history, looked, looked, Now(), rows);
    }

    /** `assignNumbersInternal`; `at` is the moment whose table the answer describes. */
    method AssignNormalized(rows: seq<Row>, ghost requested: seq<Row>, includeRevision: bool)
      returns (numbers: Table, revision: Option<string>, ghost at: nat)
      requires Valid() && rows == NormalizeRows(requested)
      modifies this
      ensures Valid() && old(history) <= history && old(Now()) <= at == Now()
      ensures AllNumbered(table, rows) && numbers == Lookup(table, rows)
      ensures revision.Some? ==> includeRevision && revision.value == revisionOf(table)
      ensures revision.Some? ==> history[at].commit == Some(AssignRows(requested)) && old(Now()) < at && SomeIncomplete(history, old(Now()), at, rows)
      ensures includeRevision ==> Total() == old(Total()) + if revision.Some? then 1 else 0
      ensures Commits(script) <= Commits(old(script))
    {
      ghost var from := Now();
      var complete;
      numbers, complete := LookUp(rows);
      at := Now();
      if complete { return numbers, None, at; }
      ghost var looked := at;
      numbers := AssignUnderLock(rows, requested);
      at := Now();
      SomewhatEarlier(history, from, looked, at, rows);
      revision := if includeRevision then Some(revisionOf(table)) else None;
    }

    /** `assignNumbers` and `assignNumbersWithRevision`. There is a revision only if, and whenever, some
        row was missing and this request persisted the missing ones. */
    method AssignNumbers(requested: seq<Row>, includeRevision: bool)
      returns (numbers: Table, revision: Option<string>, ghost at: nat)
      requires Valid()
      modifies this
      ensures Valid() && old(history) <= history
      ensures old(Now()) <= at < |history|
      ensures AllNumbered(history[at].table, NormalizeRows(requested))
      ensures numbers == Lookup(history[at].table, NormalizeRows(requested))
      ensures revision.Some? ==> includeRevision && revision.value == revisionOf(history[at].table)
      ensures revision.Some? ==> history[at].commit == Some(AssignRows(requested)) && old(Now()) < at == Now()
      ensures revision.Some? ==> SomeIncomplete(history, old(Now()), at, NormalizeRows(requested))
      ensures includeRevision ==> Total() == old(Total()) + if revision.Some? then 1 else 0
      ensures Commits(script) <= Commits(old(script))
    {
      at := Now();
      var rows := NormalizedRowsOf(requested);
      if rows == [] { return map[], None, at; }
      numbers, revision, at := AssignNormalized(rows, requested, includeRevision);
    }

    /** `assignProvisionalNumbers`: two queries with a wait between them. */
    method AssignProvisionalNumbers(requested: seq<Row>)
      returns (numbers: Table, ghost findAt: nat, ghost maxAt: nat)
      requires Valid()
      modifies this
      ensures Valid() && old(history) <= history && Total() == old(Total())
      ensures old(Now()) <= findAt <= maxAt < |history|
      ensures numbers == ProvisionalFromTwoReads(history[findAt].table, history[maxAt].table, NormalizeRows(requested), RowLe(collate))
    {
      findAt, maxAt := Now(), Now();
      var rows := NormalizedRowsOf(requested);
      if rows == [] {
        NothingToFind(table, RowLe(collate));
        return map[], findAt, maxAt;
      }
      numbers, findAt, maxAt := ProvisionalForRows(rows);
    }

    method ProvisionalForRows(rows: seq<Row>) returns (numbers: Table, ghost findAt: nat, ghost maxAt: nat)
      requires Valid()
      modifies this
      ensures Valid() && old(history) <= history && Total() == old(Total())
      ensures old(Now()) <= findAt <= maxAt < |history|
      ensures numbers == ProvisionalFromTwoReads(history[findAt].table, history[maxAt].table, rows, RowLe(collate))
    {
      Await();
      findAt := Now();
      ghost var found, before := table, history;
      numbers := FindAssignedNumbers(rows);
      MissingFromLookup(found, rows);
      var missingRows := Sort(Missing(numbers, rows), RowLe(collate));
      if missingRows == [] {
        AllFound(found, table, rows, RowLe(collate));
        maxAt := findAt;
        return;
      }

      var created;
      created, maxAt := NumberAboveMaximum(missingRows);
      PrefixAt(before, history, findAt);
      numbers := numbers + created;
    }

    method NumberAboveMaximum(missingRows: seq<Row>) returns (created: Table, ghost maxAt: nat)
      requires Valid()
      modifies this
      ensures Valid() && old(history) <= history && Total() == old(Total())
      ensures old(Now()) <= maxAt < |history|
      ensures created == NumberFrom(missingRows, MaxNumber(history[maxAt].table))
    {
      Await();
      maxAt := Now();
      var maximum := Maximum();
      created := NumberRows(missingRows, maximum);
    }

    /** The critical section of `recalculateNumbers`. */
    method ReplaceAll(rows: seq<Row>, ghost requested: seq<Row>) returns (numbers: Table)
      requires Valid() && rows == NormalizeRows(requested)
      modifies this`table, this`history
      ensures Valid() && numbers == table == Renumbered(rows, RowLe(collate))
      ensures history == old(history) + [Version(table, Some(RenumberRows(requested)))]
    {
      HistoryGrows(history, RenumberRows(requested), RowLe(collate));
      table := map[];
      numbers := NumberRows(Sort(rows, RowLe(collate)), 0);
      table := numbers;
      history := history + [Version(table, Some(RenumberRows(requested)))];
    }

    method RecalculateNumbers(requested: seq<Row>) returns (numbers: Table)
      requires Valid()
      modifies this
      ensures Valid() && old(history) <= history && Total() == old(Total()) + 1
      ensures numbers == table == Renumbered(NormalizeRows(requested), RowLe(collate))
      ensures history[|history| - 1].commit == Some(RenumberRows(requested))
    {
      var rows := NormalizedRowsOf(requested);
      Await();
      numbers := ReplaceAll(rows, requested);
    }

    method GetRevision() returns (revision: string, ghost at: nat)
      requires Valid()
      modifies this
      ensures Valid() && old(history) <= history && Total() == old(Total()) && at == Now()
      ensures old(Now()) <= at < |history| && revision == revisionOf(history[at].table)
    {
      Await();
      at := Now();
      revision := revisionOf(table);
    }
  }

  /** Provisional numbers when the persisted numbers and their maximum come from two queries. */
  ghost function ProvisionalFromTwoReads(found: Table, counted: Table, rows: seq<Row>, le: (Row, Row) -> bool): Table {
    Lookup(found, rows) + NumberFrom(Sort(Missing(found, rows), le), MaxNumber(counted))
  }

  lemma NothingToFind(t: Table, le: (Row, Row) -> bool)
    ensures ProvisionalFromTwoReads(t, t, [], le) == map[]
  {
  }

  lemma AllFound(found: Table, counted: Table, rows: seq<Row>, le: (Row, Row) -> bool)
    requires Sort(Missing(found, rows), le) == []
    ensures ProvisionalFromTwoReads(found, counted, rows, le) == Lookup(found, rows)
  {
  }

  /** The past does not change. */
  lemma PrefixAt(h: seq<Version>, h': seq<Version>, i: nat)
    requires h <= h' && i < |h|
    ensures h'[i] == h[i]
  {
  }

  lemma LookupStep(t: Table, rows: seq<Row>, i: nat)
    requires i < |rows|
    ensures Lookup(t, rows[..i + 1])
         == if rows[i].rowKey in t then Lookup(t, rows[..i])[rows[i].rowKey := t[rows[i].rowKey]] else Lookup(t, rows[..i])
  {
    forall k ensures HasKey(rows[..i + 1], k) <==> HasKey(rows[..i], k) || k == rows[i].rowKey {
      if HasKey(rows[..i], k) {
        var j :| 0 <= j < i && rows[..i][j].rowKey == k;
        assert rows[..i + 1][j].rowKey == k;
      }
      if k == rows[i].rowKey {
        assert rows[..i + 1][i].rowKey == k;
      }
      if HasKey(rows[..i + 1], k) {
        var j :| 0 <= j < i + 1 && rows[..i + 1][j].rowKey == k;
        if j < i { assert rows[..i][j].rowKey == k; }
      }
    }
  }

  /** What the query did not find is not in the table. */
  lemma {:induction false} MissingFromLookup(t: Table, rows: seq<Row>)
    ensures Missing(Lookup(t, rows), rows) == Missing(t, rows)
    ensures AllNumbered(Lookup(t, rows), rows) <==> AllNumbered(t, rows)
  {
    forall i | 0 <= i < |rows| ensures rows[i].rowKey in Lookup(t, rows) <==> rows[i].rowKey in t {
      assert HasKey(rows, rows[i].rowKey);
    }
    MissingAgrees(Lookup(t, rows), t, rows);
  }

  lemma {:induction false} MissingAgrees(t: Table, u: Table, rows: seq<Row>)
    requires forall i :: 0 <= i < |rows| ==> (rows[i].rowKey in t <==> rows[i].rowKey in u)
    ensures Missing(t, rows) == Missing(u, rows)
  {
    if rows != [] {
      MissingAgrees(t, u, rows[..|rows| - 1]);
    }
  }

  lemma InsertMissingFacts(t: Table, rows: seq<Row>, requested: seq<Row>, collate: (string, string) -> int)
    requires Collation(collate) && rows == NormalizeRows(requested)
    ensures Missing(Lookup(t, rows), rows) == Missing(t, rows)
    ensures Lookup(t, rows) + NewNumbers(t, rows, RowLe(collate)) == Lookup(Assigned(t, rows, RowLe(collate)), rows)
    ensures AllNumbered(Assigned(t, rows, RowLe(collate)), rows)
  {
    CompareRowsIsOrder(collate);
    NormalizedRows(requested);
    AssigningNumbersAll(t, rows, RowLe(collate));
    ProvisionalIsAssigned(t, rows, RowLe(collate));
    MissingFromLookup(t, rows);
  }

  lemma HistoryGrows(h: seq<Version>, w: Write, le: (Row, Row) -> bool)
    requires History(h, le)
    ensures History(h + [Version(Commit(h[|h| - 1].table, w, le), Some(w))], le)
  {
  }
}
