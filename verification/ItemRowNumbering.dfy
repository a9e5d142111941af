/** backend/src/files/item-row-numbering.service.ts: stable row numbers of one ACP. This module
    says what one transaction does to the number table; ItemRowNumberingService runs the
    transactions of many requests against each other. */
module ItemRowNumbering {
  import opened Outcomes
  import opened Sorting
  import opened Text

  datatype Row = Row(rowKey: string, itemId: string, unitId: string, subId: string)

  /** The persisted numbers by row key. The SHA-256 hash of a row key, under which the database
      finds it, is taken to identify the key. */
  type Table = map<string, nat>

  // ------------------------------------------------------------------------- row order

  /** What is needed of `Intl.Collator`: a three-way comparison by a total preorder. Different
      strings may tie, as "a" and "A" do. */
  ghost predicate Collation(c: (string, string) -> int) {
    && (forall a, b :: c(a, b) <= 0 || c(b, a) <= 0)
    && (forall a, b :: c(a, b) == 0 <==> c(a, b) <= 0 && c(b, a) <= 0)
    && (forall a, b, d :: c(a, b) <= 0 && c(b, d) <= 0 ==> c(a, d) <= 0)
  }

  /** Item id, then sub id, then unit id, then row key. */
  function CompareRows(c: (string, string) -> int, left: Row, right: Row): int {
    var byItem := c(left.itemId, right.itemId);
    if byItem != 0 then byItem
    else
      var bySubId := c(left.subId, right.subId);
      if bySubId != 0 then bySubId
      else
        var byUnit := c(left.unitId, right.unitId);
        if byUnit != 0 then byUnit else c(left.rowKey, right.rowKey)
  }

  function RowLe(c: (string, string) -> int): (Row, Row) -> bool {
    (left, right) => CompareRows(c, left, right) <= 0
  }

  /** The comparison handed to `sort` is consistent. */
  lemma CompareRowsIsOrder(c: (string, string) -> int)
    requires Collation(c)
    ensures TotalPreorder(RowLe(c))
  {
    var le := RowLe(c);
    forall a, b ensures le(a, b) || le(b, a) {
      CompareTotal(c, a, b);
    }
    forall a, b, d | le(a, b) && le(b, d) ensures le(a, d) {
      CompareTransitive(c, a, b, d);
    }
  }

  lemma CompareTotal(c: (string, string) -> int, a: Row, b: Row)
    requires Collation(c)
    ensures CompareRows(c, a, b) <= 0 || CompareRows(c, b, a) <= 0
  {
  }

  lemma CompareTransitive(c: (string, string) -> int, a: Row, b: Row, d: Row)
    requires Collation(c) && CompareRows(c, a, b) <= 0 && CompareRows(c, b, d) <= 0
    ensures CompareRows(c, a, d) <= 0
  {
    LeFacts(c, a.itemId, b.itemId, d.itemId);
    LeFacts(c, a.subId, b.subId, d.subId);
    LeFacts(c, a.unitId, b.unitId, d.unitId);
    LeFacts(c, a.rowKey, b.rowKey, d.rowKey);
  }

  lemma LeFacts(c: (string, string) -> int, x: string, y: string, z: string)
    requires Collation(c)
    ensures c(x, y) <= 0 && c(y, z) <= 0 ==> c(x, z) <= 0
    ensures c(x, z) == 0 && c(x, y) <= 0 && c(y, z) <= 0 ==> c(x, y) == 0 && c(y, z) == 0
  {
    if c(x, z) == 0 && c(x, y) <= 0 && c(y, z) <= 0 {
      assert c(z, x) <= 0;
      assert c(y, x) <= 0;
      assert c(z, y) <= 0;
    }
  }

  /** What rows are compared by, one after the other. */
  function Fields(r: Row): seq<string> { [r.itemId, r.subId, r.unitId, r.rowKey] }

  ghost predicate Ties(c: (string, string) -> int, left: Row, right: Row, n: nat)
    requires n <= 4
  {
    forall i :: 0 <= i < n ==> c(Fields(left)[i], Fields(right)[i]) == 0
  }

  /** The left row stands before the right one by the first field in which they do not tie. */
  ghost predicate StandsBefore(c: (string, string) -> int, left: Row, right: Row) {
    exists i :: 0 <= i < 4 && Ties(c, left, right, i) && c(Fields(left)[i], Fields(right)[i]) < 0
  }

  lemma FirstDifferenceDecides(c: (string, string) -> int, left: Row, right: Row)
    requires Collation(c)
    ensures StandsBefore(c, left, right) <==> !RowLe(c)(right, left)
    ensures RowLe(c)(left, right) <==> StandsBefore(c, left, right) || Ties(c, left, right, 4)
  {
    var s, t := Fields(left), Fields(right);
    forall i | 0 <= i < 4 ensures c(s[i], t[i]) == 0 <==> c(t[i], s[i]) == 0 { }
    if StandsBefore(c, left, right) {
      var i :| 0 <= i < 4 && Ties(c, left, right, i) && c(s[i], t[i]) < 0;
      assert i > 0 ==> c(s[0], t[0]) == 0;
      assert i > 1 ==> c(s[1], t[1]) == 0;
      assert i > 2 ==> c(s[2], t[2]) == 0;
    }
    if c(s[0], t[0]) != 0 {
      assert Ties(c, left, right, 0);
    } else if c(s[1], t[1]) != 0 {
      assert Ties(c, left, right, 1);
    } else if c(s[2], t[2]) != 0 {
      assert Ties(c, left, right, 2);
    } else {
      assert Ties(c, left, right, 3);
    }
  }

  // -------------------------------------------------------------------- normalised rows

  predicate HasKey(rows: seq<Row>, key: string) {
    exists i :: 0 <= i < |rows| && rows[i].rowKey == key
  }

  /** Trimmed, non-blank row keys; the first row of each key. */
  function NormalizeRows(rows: seq<Row>): seq<Row> {
    if rows == [] then []
    else
      var before := NormalizeRows(rows[..|rows| - 1]);
      var row := rows[|rows| - 1];
      var key := Trim(row.rowKey);
      if key == "" || HasKey(before, key) then before else before + [row.(rowKey := key)]
  }

  ghost predicate DistinctKeys(rows: seq<Row>) {
    forall i, j :: 0 <= i < j < |rows| ==> rows[i].rowKey != rows[j].rowKey
  }

  lemma HasKeyOneMore(rows: seq<Row>, k: string)
    requires rows != []
    ensures HasKey(rows, k) <==> HasKey(rows[..|rows| - 1], k) || k == rows[|rows| - 1].rowKey
  {
    var n := |rows| - 1;
    if HasKey(rows[..n], k) {
      var i :| 0 <= i < n && rows[..n][i].rowKey == k;
      assert rows[i].rowKey == k;
    }
    if HasKey(rows, k) {
      var i :| 0 <= i <= n && rows[i].rowKey == k;
      if i < n { assert rows[..n][i].rowKey == k; }
    }
  }

  ghost predicate GivesKey(rows: seq<Row>, key: string) {
    exists i :: 0 <= i < |rows| && Trim(rows[i].rowKey) == key
  }

  lemma GivesKeyOneMore(rows: seq<Row>, key: string)
    requires rows != []
    ensures GivesKey(rows, key) <==> GivesKey(rows[..|rows| - 1], key) || Trim(rows[|rows| - 1].rowKey) == key
  {
    var n := |rows| - 1;
    if GivesKey(rows[..n], key) {
      var i :| 0 <= i < n && Trim(rows[..n][i].rowKey) == key;
      assert Trim(rows[i].rowKey) == key;
    }
    if GivesKey(rows, key) {
      var i :| 0 <= i <= n && Trim(rows[i].rowKey) == key;
      if i < n { assert Trim(rows[..n][i].rowKey) == key; }
    }
  }

  lemma {:induction false} NormalizedKey(rows: seq<Row>, key: string)
    ensures HasKey(NormalizeRows(rows), key) <==> key != "" && GivesKey(rows, key)
  {
    if rows != [] {
      var n := |rows| - 1;
      var r := NormalizeRows(rows);
      NormalizedKey(rows[..n], key);
      GivesKeyOneMore(rows, key);
      if r != NormalizeRows(rows[..n]) {
        HasKeyOneMore(r, key);
        assert r[..|r| - 1] == NormalizeRows(rows[..n]);
      }
    }
  }

  lemma {:induction false} NormalizedShape(rows: seq<Row>)
    ensures DistinctKeys(NormalizeRows(rows))
    ensures forall i :: 0 <= i < |NormalizeRows(rows)| ==>
              NormalizeRows(rows)[i].rowKey != "" && Trimmed(NormalizeRows(rows)[i].rowKey)
  {
    if rows != [] {
      NormalizedShape(rows[..|rows| - 1]);
      TrimIsTrimmed(rows[|rows| - 1].rowKey);
    }
  }

  lemma NormalizedRows(rows: seq<Row>)
    ensures DistinctKeys(NormalizeRows(rows))
    ensures forall i :: 0 <= i < |NormalizeRows(rows)| ==>
              NormalizeRows(rows)[i].rowKey != "" && Trimmed(NormalizeRows(rows)[i].rowKey)
    ensures forall key :: HasKey(NormalizeRows(rows), key) <==>
              key != "" && exists i :: 0 <= i < |rows| && Trim(rows[i].rowKey) == key
  {
    NormalizedShape(rows);
    forall key ensures HasKey(NormalizeRows(rows), key) <==> key != "" && GivesKey(rows, key) { NormalizedKey(rows, key); }
  }

  /** The normalised rows are the first rows of their keys, in the order of the input; only the key is
      trimmed. */
  ghost predicate ComesFrom(rows: seq<Row>, r: Row) {
    exists j :: 0 <= j < |rows| && r == rows[j].(rowKey := Trim(rows[j].rowKey)) && forall i :: 0 <= i < j ==> Trim(rows[i].rowKey) != r.rowKey
  }

  lemma ComesFromMore(rows: seq<Row>, n: nat, r: Row)
    requires n <= |rows| && ComesFrom(rows[..n], r)
    ensures ComesFrom(rows, r)
  {
    var j :| 0 <= j < n && r == rows[..n][j].(rowKey := Trim(rows[..n][j].rowKey)) && forall i :: 0 <= i < j ==> Trim(rows[..n][i].rowKey) != r.rowKey;
    assert rows[j] == rows[..n][j];
    forall i | 0 <= i < j ensures Trim(rows[i].rowKey) != r.rowKey { assert rows[i] == rows[..n][i]; }
  }

  lemma {:induction false} NormalizedRowsComeFrom(rows: seq<Row>, r: Row)
    requires r in NormalizeRows(rows)
    ensures ComesFrom(rows, r)
  {
    var n := |rows| - 1;
    if r in NormalizeRows(rows[..n]) {
      NormalizedRowsComeFrom(rows[..n], r);
      ComesFromMore(rows, n, r);
    } else {
      NormalizedKey(rows[..n], r.rowKey);
      assert !GivesKey(rows[..n], r.rowKey);
      forall i | 0 <= i < n ensures Trim(rows[i].rowKey) != r.rowKey { assert rows[..n][i] == rows[i]; }
    }
  }

  // -------------------------------------------------------------------------- numbering

  /** Consecutive numbers above `start` in the order of the rows. */
  function NumberFrom(rows: seq<Row>, start: nat): Table {
    if rows == [] then map[]
    else
      var n := |rows| - 1;
      NumberFrom(rows[..n], start)[rows[n].rowKey := start + n + 1]
  }

  /** The largest persisted number, 0 for an empty table. */
  ghost function MaxNumber(t: Table): (m: nat)
    ensures forall k :: k in t ==> t[k] <= m
    ensures m == 0 || exists k :: k in t && t[k] == m
  {
    if t == map[] then 0
    else
      var k :| k in t;
      var rest := t - {k};
      assert |rest| < |t|;
      var m := MaxNumber(rest);
      assert forall x :: x in t ==> x == k || x in rest;
      if m == 0 || m <= t[k] then t[k]
      else
        var x :| x in rest && rest[x] == m;
        assert x in t && t[x] == m;
        m
  }

  /** The persisted numbers of the given rows, as one query finds them. */
  function Lookup(t: Table, rows: seq<Row>): Table {
    map k | k in t && HasKey(rows, k) :: t[k]
  }

  predicate AllNumbered(t: Table, rows: seq<Row>) {
    forall i :: 0 <= i < |rows| ==> rows[i].rowKey in t
  }

  function Missing(t: Table, rows: seq<Row>): seq<Row> {
    if rows == [] then []
    else
      var n := |rows| - 1;
      Missing(t, rows[..n]) + if rows[n].rowKey in t then [] else [rows[n]]
  }

  ghost function NewNumbers(t: Table, rows: seq<Row>, le: (Row, Row) -> bool): Table {
    NumberFrom(Sort(Missing(t, rows), le), MaxNumber(t))
  }

  /** The table after the missing rows have been persisted. */
  ghost function Assigned(t: Table, rows: seq<Row>, le: (Row, Row) -> bool): Table {
    t + NewNumbers(t, rows, le)
  }

  /** The numbers shown without persisting anything. */
  ghost function Provisional(t: Table, rows: seq<Row>, le: (Row, Row) -> bool): Table {
    Lookup(t, rows) + NewNumbers(t, rows, le)
  }

  /** The table after a renumbering. */
  function Renumbered(rows: seq<Row>, le: (Row, Row) -> bool): Table {
    NumberFrom(Sort(rows, le), 0)
  }

  /** Row keys and positive numbers correspond one to one. */
  ghost predicate OneToOne(t: Table) {
    && (forall k :: k in t ==> t[k] >= 1)
    && (forall j, k :: j in t && k in t && j != k ==> t[j] != t[k])
  }

  ghost predicate Extends(t: Table, t': Table) {
    forall k :: k in t ==> k in t' && t'[k] == t[k]
  }

  lemma {:induction false} NumberFromAt(rows: seq<Row>, start: nat)
    requires DistinctKeys(rows)
    ensures forall k :: k in NumberFrom(rows, start) <==> HasKey(rows, k)
    ensures forall i :: 0 <= i < |rows| ==>
              rows[i].rowKey in NumberFrom(rows, start) && NumberFrom(rows, start)[rows[i].rowKey] == start + i + 1
  {
    if rows != [] {
      var n := |rows| - 1;
      NumberFromAt(rows[..n], start);
      forall k ensures k in NumberFrom(rows, start) <==> HasKey(rows, k) { HasKeyOneMore(rows, k); }
      forall i | 0 <= i < n
        ensures rows[i].rowKey in NumberFrom(rows, start) && NumberFrom(rows, start)[rows[i].rowKey] == start + i + 1
      {
        assert rows[..n][i] == rows[i] && rows[i].rowKey != rows[n].rowKey;
      }
    }
  }

  lemma {:induction false} MissingShape(t: Table, rows: seq<Row>)
    requires DistinctKeys(rows)
    ensures DistinctKeys(Missing(t, rows))
    ensures forall r :: r in Missing(t, rows) <==> r in rows && r.rowKey !in t
  {
    if rows != [] {
      var n := |rows| - 1;
      MissingShape(t, rows[..n]);
      assert rows == rows[..n] + [rows[n]];
      forall i | 0 <= i < |Missing(t, rows[..n])| ensures Missing(t, rows[..n])[i].rowKey != rows[n].rowKey {
        assert Missing(t, rows[..n])[i] in rows[..n];
      }
    }
  }

  lemma SortKeepsKeys(rows: seq<Row>, le: (Row, Row) -> bool)
    requires DistinctKeys(rows) && TotalPreorder(le)
    ensures DistinctKeys(Sort(rows, le)) && |Sort(rows, le)| == |rows| && Sorted(Sort(rows, le), le)
    ensures forall k :: HasKey(Sort(rows, le), k) <==> HasKey(rows, k)
  {
    SortShape(rows, le);
    SortDistinct(rows, le);
    SortMembers(rows, le);
    var r := Sort(rows, le);
    forall i, j | 0 <= i < j < |r| ensures r[i].rowKey != r[j].rowKey {
      assert r[i] in rows && r[j] in rows;
    }
    forall k | HasKey(r, k) ensures HasKey(rows, k) {
      var i :| 0 <= i < |r| && r[i].rowKey == k;
      assert r[i] in rows;
    }
    forall k | HasKey(rows, k) ensures HasKey(r, k) {
      var i :| 0 <= i < |rows| && rows[i].rowKey == k;
      assert rows[i] in r;
    }
  }

  /** The rows have consecutive numbers in `t`, beginning with `first`. */
  ghost predicate Block(rows: seq<Row>, first: nat, t: Table) {
    forall i :: 0 <= i < |rows| ==> rows[i].rowKey in t && t[rows[i].rowKey] == first + i
  }

  /** Consecutive numbers are distinct. */
  lemma {:induction false} NumberFromOneToOne(rows: seq<Row>, start: nat)
    ensures forall k :: k in NumberFrom(rows, start) ==> start < NumberFrom(rows, start)[k] <= start + |rows|
    ensures OneToOne(NumberFrom(rows, start))
  {
    if rows != [] {
      NumberFromOneToOne(rows[..|rows| - 1], start);
    }
  }

  lemma NewNumbersShape(t: Table, rows: seq<Row>, le: (Row, Row) -> bool)
    requires DistinctKeys(rows) && TotalPreorder(le)
    ensures forall k :: k in NewNumbers(t, rows, le) <==> HasKey(rows, k) && k !in t
    ensures Sorted(Sort(Missing(t, rows), le), le)
    ensures Block(Sort(Missing(t, rows), le), MaxNumber(t) + 1, NewNumbers(t, rows, le))
  {
    MissingShape(t, rows);
    SortKeepsKeys(Missing(t, rows), le);
    NumberFromAt(Sort(Missing(t, rows), le), MaxNumber(t));
    forall k ensures k in NewNumbers(t, rows, le) <==> HasKey(rows, k) && k !in t {
      var m := Missing(t, rows);
      if HasKey(m, k) {
        var i :| 0 <= i < |m| && m[i].rowKey == k;
        assert m[i] in rows;
      }
      if HasKey(rows, k) && k !in t {
        var i :| 0 <= i < |rows| && rows[i].rowKey == k;
        assert rows[i] in m;
      }
    }
  }

  /** Persisting the missing rows changes no number and gives the new rows, in row order, the
      numbers directly above the largest one. */
  lemma AssigningKeepsNumbers(t: Table, rows: seq<Row>, le: (Row, Row) -> bool)
    requires DistinctKeys(rows) && TotalPreorder(le)
    ensures Extends(t, Assigned(t, rows, le))
    ensures forall k :: k in Assigned(t, rows, le) <==> k in t || HasKey(rows, k)
    ensures Sorted(Sort(Missing(t, rows), le), le)
    ensures Block(Sort(Missing(t, rows), le), MaxNumber(t) + 1, Assigned(t, rows, le))
  {
    NewNumbersShape(t, rows, le);
  }

  lemma AssigningNumbersAll(t: Table, rows: seq<Row>, le: (Row, Row) -> bool)
    requires DistinctKeys(rows) && TotalPreorder(le)
    ensures AllNumbered(Assigned(t, rows, le), rows)
  {
    NewNumbersShape(t, rows, le);
    forall i | 0 <= i < |rows| ensures rows[i].rowKey in Assigned(t, rows, le) {
      assert HasKey(rows, rows[i].rowKey);
    }
  }

  /** Keys and numbers stay one to one. */
  lemma AssigningIsOneToOne(t: Table, rows: seq<Row>, le: (Row, Row) -> bool)
    requires OneToOne(t)
    ensures OneToOne(Assigned(t, rows, le))
  {
    NumberFromOneToOne(Sort(Missing(t, rows), le), MaxNumber(t));
  }

  /** The provisional numbers are those that persisting would give in the same table. */
  lemma ProvisionalIsAssigned(t: Table, rows: seq<Row>, le: (Row, Row) -> bool)
    requires DistinctKeys(rows) && TotalPreorder(le)
    ensures Provisional(t, rows, le) == Lookup(Assigned(t, rows, le), rows)
  {
    NewNumbersShape(t, rows, le);
  }

  /** Nothing is missing from a table that has all rows. */
  lemma {:induction false} NothingMissing(t: Table, rows: seq<Row>)
    ensures AllNumbered(t, rows) <==> Missing(t, rows) == []
  {
    if rows != [] {
      var n := |rows| - 1;
      NothingMissing(t, rows[..n]);
      assert AllNumbered(t, rows) <==> AllNumbered(t, rows[..n]) && rows[n].rowKey in t;
    }
  }

  lemma AssigningAgain(t: Table, rows: seq<Row>, le: (Row, Row) -> bool)
    requires AllNumbered(t, rows)
    ensures Assigned(t, rows, le) == t && Provisional(t, rows, le) == Lookup(t, rows)
  {
    NothingMissing(t, rows);
  }

  /** A renumbering leaves exactly the numbers 1..n, in row order. */
  lemma RenumberingIsGapless(rows: seq<Row>, le: (Row, Row) -> bool)
    requires DistinctKeys(rows) && TotalPreorder(le)
    ensures OneToOne(Renumbered(rows, le))
    ensures forall k :: k in Renumbered(rows, le) <==> HasKey(rows, k)
    ensures Sorted(Sort(rows, le), le) && multiset(Sort(rows, le)) == multiset(rows)
    ensures Block(Sort(rows, le), 1, Renumbered(rows, le))
  {
    SortShape(rows, le);
    SortKeepsKeys(rows, le);
    NumberFromAt(Sort(rows, le), 0);
    NumberFromOneToOne(Sort(rows, le), 0);
  }

  lemma BlockFollowsOrder(sorted: seq<Row>, first: nat, t: Table, c: (string, string) -> int, x: Row, y: Row)
    requires Collation(c) && Sorted(sorted, RowLe(c)) && Block(sorted, first, t) && x in sorted && y in sorted && StandsBefore(c, x, y)
    ensures x.rowKey in t && y.rowKey in t && t[x.rowKey] < t[y.rowKey]
  {
    var i :| 0 <= i < |sorted| && sorted[i] == x;
    var j :| 0 <= j < |sorted| && sorted[j] == y;
    FirstDifferenceDecides(c, x, y);
    CompareRowsIsOrder(c);
    if j <= i { SortedUpTo(sorted, RowLe(c), j, i); }
  }

  lemma SortedUpTo(sorted: seq<Row>, le: (Row, Row) -> bool, j: nat, i: nat)
    requires TotalPreorder(le) && Sorted(sorted, le) && j <= i < |sorted|
    ensures le(sorted[j], sorted[i])
  {
    var x := sorted[i];
    assert le(x, x);
  }

  /** Renumbered rows follow each other by item, then by sub id, then by unit, then by row key. */
  lemma RenumberingFollowsOrder(rows: seq<Row>, c: (string, string) -> int, x: Row, y: Row)
    requires DistinctKeys(rows) && Collation(c) && x in rows && y in rows && StandsBefore(c, x, y)
    ensures var t := Renumbered(rows, RowLe(c)); x.rowKey in t && y.rowKey in t && t[x.rowKey] < t[y.rowKey]
  {
    CompareRowsIsOrder(c);
    RenumberingIsGapless(rows, RowLe(c));
    SortKeepsMembers(rows, RowLe(c), x);
    SortKeepsMembers(rows, RowLe(c), y);
    BlockFollowsOrder(Sort(rows, RowLe(c)), 1, Renumbered(rows, RowLe(c)), c, x, y);
  }

  /** So do rows that are numbered together; both come behind every row that had a number before. */
  lemma AssigningFollowsOrder(t: Table, rows: seq<Row>, c: (string, string) -> int, x: Row, y: Row)
    requires DistinctKeys(rows) && Collation(c) && x in rows && y in rows && y.rowKey !in t
    ensures var t' := Assigned(t, rows, RowLe(c));
      && x.rowKey in t' && y.rowKey in t'
      && (x.rowKey in t || StandsBefore(c, x, y) ==> t'[x.rowKey] < t'[y.rowKey])
  {
    var le, m := RowLe(c), Missing(t, rows);
    CompareRowsIsOrder(c);
    AssigningKeepsNumbers(t, rows, le);
    AssigningNumbersAll(t, rows, le);
    MissingShape(t, rows);
    SortKeepsMembers(m, le, x);
    SortKeepsMembers(m, le, y);
    if x.rowKey in t {
      var j :| 0 <= j < |Sort(m, le)| && Sort(m, le)[j] == y;
    } else if StandsBefore(c, x, y) {
      BlockFollowsOrder(Sort(m, le), MaxNumber(t) + 1, Assigned(t, rows, le), c, x, y);
    }
  }

  // -------------------------------------------------------------------------- histories

  /** A committed transaction of some request. */
  datatype Write = AssignRows(rows: seq<Row>) | RenumberRows(rows: seq<Row>)

  /** A state of the table and the transaction that produced it. */
  datatype Version = Version(table: Table, commit: Option<Write>)

  ghost function Commit(t: Table, w: Write, le: (Row, Row) -> bool): Table {
    match w
    case AssignRows(rows) => Assigned(t, NormalizeRows(rows), le)
    case RenumberRows(rows) => Renumbered(NormalizeRows(rows), le)
  }

  /** All tables an ACP has had, oldest first. */
  ghost predicate History(h: seq<Version>, le: (Row, Row) -> bool) {
    && h != [] && OneToOne(h[0].table)
    && (forall i :: 1 <= i < |h| ==>
          h[i].commit.Some? && h[i].table == Commit(h[i - 1].table, h[i].commit.value, le))
  }

  lemma {:induction false} EveryVersionIsOneToOne(h: seq<Version>, le: (Row, Row) -> bool, n: nat)
    requires History(h, le) && TotalPreorder(le) && n < |h|
    ensures OneToOne(h[n].table)
  {
    if n > 0 {
      EveryVersionIsOneToOne(h, le, n - 1);
      NormalizedRows(h[n].commit.value.rows);
      if h[n].commit.value.AssignRows? {
        AssigningIsOneToOne(h[n - 1].table, NormalizeRows(h[n].commit.value.rows), le);
      } else {
        RenumberingIsGapless(NormalizeRows(h[n].commit.value.rows), le);
      }
    }
  }

  /** Whatever a request was told stays true until the next renumbering. */
  lemma {:induction false} NumbersLastUntilRenumbering(h: seq<Version>, le: (Row, Row) -> bool, i: nat, j: nat)
    requires History(h, le) && TotalPreorder(le) && i <= j < |h|
    requires forall k :: i < k <= j ==> h[k].commit.Some? && h[k].commit.value.AssignRows?
    ensures Extends(h[i].table, h[j].table)
  {
    if i < j {
      NumbersLastUntilRenumbering(h, le, i, j - 1);
      NormalizedRows(h[j].commit.value.rows);
      AssigningKeepsNumbers(h[j - 1].table, NormalizeRows(h[j].commit.value.rows), le);
    }
  }
}
