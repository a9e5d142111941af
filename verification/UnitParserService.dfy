/** backend/src/files/unit-parser.service.ts: numbering a parsed item list while other requests
    change the number table, with an optimistic check of the table's revision. */
module UnitParserServices {
  import ItemRowKey
  import JsMaps
  import opened ItemRowNumbering
  import opened ItemRowNumberingServices
  import opened Outcomes
  import opened Sorting

  /** The part of an Explorer row that numbering reads, and the number it writes. */
  datatype Item = Item(row: Row, rowNumber: Option<nat>)

  class ItemList {
    var items: seq<Item>
  }

  function RowsOf(items: seq<Item>): seq<Row> {
    seq(|items|, i requires 0 <= i < |items| => items[i].row)
  }

  /** The items with the numbers of a table. An item whose row key is blank or not trimmed gets
      none, because the table is indexed by trimmed keys. */
  function WithNumbers(items: seq<Item>, numbers: Table): seq<Item> {
    seq(|items|, i requires 0 <= i < |items| => items[i].(rowNumber := Get(numbers, items[i].row.rowKey)))
  }

  /** Each item shows the number of its row, if there is one, and nothing else of it changes. */
  lemma NumbersAreShown(items: seq<Item>, numbers: Table, i: nat)
    requires i < |items|
    ensures |WithNumbers(items, numbers)| == |items| && WithNumbers(items, numbers)[i].row == items[i].row
    ensures var key, shown := items[i].row.rowKey, WithNumbers(items, numbers)[i].rowNumber;
      if key in numbers then shown == Some(numbers[key]) else shown == None
  {
  }

  // ---------------------------------------------------- are published and draft rows the same

  predicate IsPartialRow(key: string) { ItemRowKey.ParseItemRowKeyParts(key).Some? }

  function PartialRows(keys: seq<string>): seq<string> {
    if keys == [] then []
    else
      var n := |keys| - 1;
      PartialRows(keys[..n]) + if IsPartialRow(keys[n]) then [keys[n]] else []
  }

  lemma {:induction false} PartialRowsAre(keys: seq<string>)
    ensures forall k :: k in PartialRows(keys) <==> k in keys && IsPartialRow(k)
    ensures JsMaps.Distinct(keys) ==> JsMaps.Distinct(PartialRows(keys))
  {
    if keys != [] {
      var n := |keys| - 1;
      PartialRowsAre(keys[..n]);
      assert keys == keys[..n] + [keys[n]];
    }
  }

  function Elements(s: seq<string>): set<string> { set x | x in s }

  lemma {:induction false} AsManyElements(s: seq<string>)
    requires JsMaps.Distinct(s)
    ensures |Elements(s)| == |s|
  {
    if s != [] {
      var n := |s| - 1;
      AsManyElements(s[..n]);
      assert s == s[..n] + [s[n]];
      assert Elements(s) == Elements(s[..n]) + {s[n]};
    }
  }

  lemma SubsetOfSameSize(a: set<string>, b: set<string>)
    requires a <= b && |a| == |b|
    ensures a == b
  {
    assert |b - a| == |b| - |a|;
  }

  /** Comparing the numbers of keys and looking up one side in the other is comparing the sets. */
  lemma SameSizeInside(left: seq<string>, right: seq<string>)
    requires JsMaps.Distinct(left) && JsMaps.Distinct(right)
    ensures |left| == |right| && Elements(left) <= Elements(right) <==> Elements(left) == Elements(right)
  {
    AsManyElements(left);
    AsManyElements(right);
    if |left| == |right| && Elements(left) <= Elements(right) {
      SubsetOfSameSize(Elements(left), Elements(right));
    }
  }

  ghost predicate SamePartialRows(left: seq<string>, right: seq<string>) {
    forall k :: IsPartialRow(k) ==> (k in left <==> k in right)
  }

  lemma SamePartialRowsAsSets(left: seq<string>, right: seq<string>)
    ensures SamePartialRows(left, right) <==> Elements(PartialRows(left)) == Elements(PartialRows(right))
  {
    PartialRowsAre(left);
    PartialRowsAre(right);
    var l, r := Elements(PartialRows(left)), Elements(PartialRows(right));
    if SamePartialRows(left, right) {
      forall k ensures k in l <==> k in r {
      }
    }
    if l == r {
      forall k | IsPartialRow(k) ensures k in left <==> k in right {
        assert k in l <==> k in r;
      }
    }
  }

  /** Whether each key of the first list is in the second one. */
  method AllIn(keys: seq<string>, others: seq<string>) returns (all: bool)
    ensures all <==> Elements(keys) <= Elements(others)
  {
    for i := 0 to |keys|
      invariant forall j :: 0 <= j < i ==> keys[j] in others
    {
      if keys[i] !in others {
        assert keys[i] in Elements(keys);
        return false;
      }
    }
    return true;
  }

  /** `haveSamePartialCreditRows`, given the keys of two objects: whether they have the same
      partial rows. */
  method HaveSamePartialCreditRows(left: seq<string>, right: seq<string>) returns (same: bool)
    requires JsMaps.Distinct(left) && JsMaps.Distinct(right)
    ensures same <==> SamePartialRows(left, right)
  {
    var leftKeys, rightKeys := PartialRows(left), PartialRows(right);
    SamePartialRowsAsSets(left, right);
    assert JsMaps.Distinct(leftKeys) && JsMaps.Distinct(rightKeys) by {
      PartialRowsAre(left);
      PartialRowsAre(right);
    }
    SameSizeInside(leftKeys, rightKeys);
    if |leftKeys| != |rightKeys| { return false; }
    same := AllIn(leftKeys, rightKeys);
  }

  // ------------------------------------------------------- what one successful load observed

  /** The moments, as positions in the history of the table, at which a load read the revision
      it expects, obtained persistent numbers, made the two queries for provisional numbers and
      read the revision it compares. `locked`: the numbers came with a revision, from the
      critical section. */
  datatype Observation = Observation(expected: nat, persisted: nat, locked: bool, found: nat, counted: nat, revised: nat)

  /** One iteration of the loop that returns. */
  ghost predicate Succeeded(h: seq<Version>, revisionOf: Table -> string, le: (Row, Row) -> bool,
                            rows: seq<Row>, published: Option<seq<Row>>, o: Observation, numbers: Table, revision: string)
  {
    && o.expected <= o.persisted <= o.found <= o.counted <= o.revised < |h|
    && revision == revisionOf(h[o.revised].table)
    && match published
       case Some(publishedRows) =>
         && AllNumbered(h[o.persisted].table, NormalizeRows(publishedRows))
         && numbers == ProvisionalFromTwoReads(h[o.found].table, h[o.counted].table, NormalizeRows(rows), le)
         && revision == revisionOf(h[if o.locked then o.persisted else o.expected].table)
       case None =>
         && AllNumbered(h[o.persisted].table, NormalizeRows(rows))
         && numbers == Lookup(h[o.persisted].table, NormalizeRows(rows))
         && o.found == o.counted == o.persisted
         && (if o.locked then o.revised == o.persisted else revision == revisionOf(h[o.expected].table))
  }

  /** A revision that has been replaced by a different one never comes back, and only equal
      tables have equal revisions. */
  ghost predicate NoRecurrence(h: seq<Version>, revisionOf: Table -> string) {
    forall i, j, k :: 0 <= i <= k <= j < |h| && revisionOf(h[i].table) == revisionOf(h[j].table) ==>
      h[k].table == h[i].table
  }

  /** What a load that succeeds has computed is the uncached numbering of the table whose
      revision it returns. */
  lemma SuccessIsExact(h: seq<Version>, revisionOf: Table -> string, le: (Row, Row) -> bool,
                       rows: seq<Row>, published: Option<seq<Row>>, o: Observation, numbers: Table, revision: string)
    requires Succeeded(h, revisionOf, le, rows, published, o, numbers, revision) && NoRecurrence(h, revisionOf)
    ensures numbers == Provisional(h[o.revised].table, NormalizeRows(rows), le)
    ensures published.None? ==> AllNumbered(h[o.revised].table, NormalizeRows(rows))
  {
    var since := if o.locked then o.persisted else o.expected;
    assert revisionOf(h[since].table) == revisionOf(h[o.revised].table);
    assert h[o.persisted].table == h[o.found].table == h[o.counted].table == h[o.revised].table == h[since].table;
    if published.None? {
      AssigningAgain(h[o.revised].table, NormalizeRows(rows), le);
    }
  }

  lemma ExactNumbersOfDistinctRows(t: Table, rows: seq<Row>, le: (Row, Row) -> bool)
    requires TotalPreorder(le) && OneToOne(t) && DistinctKeys(rows)
    ensures OneToOne(Provisional(t, rows, le))
    ensures forall k :: k in Provisional(t, rows, le) <==> HasKey(rows, k)
    ensures forall k :: HasKey(rows, k) && k in t ==> Provisional(t, rows, le)[k] == t[k]
    ensures forall k :: HasKey(rows, k) && k !in t ==> Provisional(t, rows, le)[k] > MaxNumber(t)
  {
    NewNumbersShape(t, rows, le);
    NumberFromOneToOne(Sort(Missing(t, rows), le), MaxNumber(t));
    var news, shown := NewNumbers(t, rows, le), Provisional(t, rows, le);
    forall k | k in shown ensures if k in t then shown[k] == t[k] && k !in news else k in news && shown[k] == news[k] > MaxNumber(t) {
    }
  }

  /** In that numbering a persisted row shows its persisted number, and the other rows show
      distinct numbers above all persisted ones. */
  lemma ExactNumbersMeaning(t: Table, rows: seq<Row>, le: (Row, Row) -> bool)
    requires TotalPreorder(le) && OneToOne(t)
    ensures OneToOne(Provisional(t, NormalizeRows(rows), le))
    ensures forall k :: k in Provisional(t, NormalizeRows(rows), le) <==> HasKey(NormalizeRows(rows), k)
    ensures forall k :: HasKey(NormalizeRows(rows), k) && k in t ==> Provisional(t, NormalizeRows(rows), le)[k] == t[k]
    ensures forall k :: HasKey(NormalizeRows(rows), k) && k !in t ==> Provisional(t, NormalizeRows(rows), le)[k] > MaxNumber(t)
  {
    NormalizedRows(rows);
    ExactNumbersOfDistinctRows(t, NormalizeRows(rows), le);
  }

  // ------------------------------------------------------------------------- the retry loop

  method SetItemRowNumbers(list: ItemList, numbers: Table)
    modifies list
    ensures list.items == WithNumbers(old(list.items), numbers)
  {
    var i := 0;
    while i < |list.items|
      invariant i <= |list.items| == |old(list.items)|
      invariant list.items[..i] == WithNumbers(old(list.items), numbers)[..i]
      invariant list.items[i..] == old(list.items)[i..]
    {
      var item := list.items[i];
      assert item == old(list.items)[i];
      list.items := list.items[i := item.(rowNumber := Get(numbers, item.row.rowKey))];
      i := i + 1;
    }
  }

  /** The items carry the uncached numbering of a table with this revision; it has all rows if they
      were persisted. */
  ghost predicate ShowsTable(t: Table, revisionOf: Table -> string, le: (Row, Row) -> bool,
                             items: seq<Item>, persisted: bool, revision: string, shown: seq<Item>)
  {
    && revision == revisionOf(t)
    && shown == WithNumbers(items, Provisional(t, NormalizeRows(RowsOf(items)), le))
    && (persisted ==> AllNumbered(t, NormalizeRows(RowsOf(items))))
  }

  /** How many of the attempts so far were refused because of what others committed meanwhile; the
      first one can also be refused because it was given an old revision. */
  function Refused(attempts: nat, current: bool): nat { if current || attempts == 0 then attempts else attempts - 1 }

  /** `applyItemRowNumbersWithStableRevision`, called with a revision that the caller read when
      the history had length `readAt + 1`. It fails only if others commit in each attempt, but for a
      first one with an old revision; so it succeeds if nobody else commits. */
  method ApplyItemRowNumbersWithStableRevision(
      service: ItemRowNumberingService, active: ItemList, published: ItemList?, initialRevision: string, ghost readAt: nat)
    returns (r: Result<string, string>, ghost o: Observation, ghost numbers: Table)
    requires service.Valid() && active != published
    requires readAt < |service.history| && service.revisionOf(service.history[readAt].table) == initialRevision
    modifies service, active, published
    ensures service.Valid() && old(service.history) <= service.history
    ensures r.Ok? ==>
      && readAt <= o.expected
      && Succeeded(service.history, service.revisionOf, RowLe(service.collate), RowsOf(old(active.items)),
                   if published == null then None else Some(RowsOf(old(published.items))), o, numbers, r.value)
      && active.items == WithNumbers(old(active.items), numbers)
    ensures r.Ok? && NoRecurrence(service.history, service.revisionOf) ==>
      o.revised < |service.history| &&
      ShowsTable(service.history[o.revised].table, service.revisionOf, RowLe(service.collate), old(active.items), published == null, r.value, active.items)
    ensures r.Err? ==> Commits(service.script) + 2 <= Commits(old(service.script))
    ensures r.Err? && initialRevision == service.revisionOf(old(service.table)) ==> Commits(service.script) + 3 <= Commits(old(service.script))
  {
    o := Observation(0, 0, false, 0, 0, 0);
    numbers := map[];
    ghost var publishedRows := if published == null then None else Some(RowsOf(published.items));
    ghost var items := active.items;
    ghost var coming, current := Commits(service.script), initialRevision == service.revisionOf(service.table);
    var expectedRevision := initialRevision;
    ghost var expected := readAt;
    var maxRevisionChecks := 3;

    for attempt := 0 to maxRevisionChecks
      invariant service.Valid() && old(service.history) <= service.history
      invariant readAt <= expected < |service.history|
      invariant service.revisionOf(service.history[expected].table) == expectedRevision
      invariant attempt > 0 || current ==> expectedRevision == service.revisionOf(service.table)
      invariant Commits(service.script) + Refused(attempt, current) <= coming
      invariant SameButNumbers(items, active.items)
      invariant published != null ==> publishedRows == Some(RowsOf(published.items))
    {
      var outcome;
      outcome, o, numbers := Attempt(service, active, published, expectedRevision, expected, items, publishedRows);
      if outcome.Accepted? { return Ok(outcome.revision), o, numbers; }
      expectedRevision := outcome.observed;
      expected := o.revised;
    }
    return Err("Item row numbers changed repeatedly while the item list was loading"), o, numbers;
  }

  ghost predicate SameButNumbers(items: seq<Item>, items': seq<Item>) {
    |items| == |items'| && forall i :: 0 <= i < |items| ==> items'[i].row == items[i].row
  }

  lemma SameRows(items: seq<Item>, items': seq<Item>)
    requires SameButNumbers(items, items')
    ensures RowsOf(items') == RowsOf(items)
  {
  }

  lemma SameShown(items: seq<Item>, items': seq<Item>, numbers: Table)
    requires SameButNumbers(items, items')
    ensures WithNumbers(items', numbers) == WithNumbers(items, numbers)
    ensures SameButNumbers(items, WithNumbers(items', numbers))
  {
  }

  datatype AttemptOutcome = Accepted(revision: string) | Changed(observed: string)

  lemma SuccessShown(h: seq<Version>, revisionOf: Table -> string, le: (Row, Row) -> bool, items: seq<Item>,
                     published: Option<seq<Row>>, o: Observation, numbers: Table, revision: string)
    requires Succeeded(h, revisionOf, le, RowsOf(items), published, o, numbers, revision)
    ensures NoRecurrence(h, revisionOf) ==>
      ShowsTable(h[o.revised].table, revisionOf, le, items, published.None?, revision, WithNumbers(items, numbers))
  {
    if NoRecurrence(h, revisionOf) {
      SuccessIsExact(h, revisionOf, le, RowsOf(items), published, o, numbers, revision);
    }
  }

  /** The body of the loop; `items` and `publishedRows` are what the loads began with. */
  method Attempt(service: ItemRowNumberingService, active: ItemList, published: ItemList?, expectedRevision: string, ghost expected: nat,
                 ghost items: seq<Item>, ghost publishedRows: Option<seq<Row>>)
    returns (outcome: AttemptOutcome, ghost o: Observation, ghost numbers: Table)
    requires service.Valid() && active != published && SameButNumbers(items, active.items)
    requires publishedRows == if published == null then None else Some(RowsOf(published.items))
    requires expected < |service.history| && service.revisionOf(service.history[expected].table) == expectedRevision
    modifies service, active, published
    ensures service.Valid() && old(service.history) <= service.history
    ensures active.items == WithNumbers(items, numbers) && SameButNumbers(items, active.items)
    ensures published != null ==> publishedRows == Some(RowsOf(published.items))
    ensures o.expected == expected <= o.persisted <= o.revised < |service.history|
    ensures outcome.Accepted? ==>
      Succeeded(service.history, service.revisionOf, RowLe(service.collate), RowsOf(items), publishedRows, o, numbers, outcome.revision)
    ensures outcome.Accepted? && NoRecurrence(service.history, service.revisionOf) ==>
      ShowsTable(service.history[o.revised].table, service.revisionOf, RowLe(service.collate), items, publishedRows.None?, outcome.revision, active.items)
    ensures outcome.Changed? ==> outcome.observed == service.revisionOf(service.history[o.revised].table) == service.revisionOf(service.table)
    ensures Commits(service.script) <= Commits(old(service.script))
    ensures outcome.Changed? && expectedRevision == service.revisionOf(old(service.table)) ==> Commits(service.script) < Commits(old(service.script))
  {
    ghost var before := active.items;
    SameRows(items, before);
    if published != null {
      ghost var publishedItems := published.items;
      outcome, o, numbers := AttemptPublished(service, active, published, expectedRevision, expected);
      SameRows(publishedItems, published.items);
    } else {
      outcome, o, numbers := AttemptActive(service, active, expectedRevision, expected);
    }
    SameShown(items, before, numbers);
    if outcome.Accepted? {
      SuccessShown(service.history, service.revisionOf, RowLe(service.collate), items, publishedRows, o, numbers, outcome.revision);
    }
  }

  /** `applyPersistedItemRowNumbers` */
  method ShowPersisted(service: ItemRowNumberingService, list: ItemList) returns (revision: Option<string>, ghost persisted: nat, ghost numbers: Table)
    requires service.Valid()
    modifies service, list
    ensures service.Valid() && old(service.history) <= service.history && |old(service.history)| - 1 <= persisted < |service.history|
    ensures AllNumbered(service.history[persisted].table, NormalizeRows(RowsOf(old(list.items))))
    ensures numbers == Lookup(service.history[persisted].table, NormalizeRows(RowsOf(old(list.items)))) && list.items == WithNumbers(old(list.items), numbers)
    ensures revision.Some? ==> revision.value == service.revisionOf(service.history[persisted].table) && |old(service.history)| <= persisted
    ensures service.Total() == old(service.Total()) + (if revision.Some? then 1 else 0)
    ensures Commits(service.script) <= Commits(old(service.script))
  {
    var assignedNumbers;
    assignedNumbers, revision, persisted := service.AssignNumbers(RowsOf(list.items), true);
    numbers := assignedNumbers;
    SetItemRowNumbers(list, assignedNumbers);
  }

  /** The draft is numbered without persisting anything. */
  method ShowProvisional(service: ItemRowNumberingService, list: ItemList) returns (ghost found: nat, ghost counted: nat, ghost numbers: Table)
    requires service.Valid()
    modifies service, list
    ensures service.Valid() && old(service.history) <= service.history && |old(service.history)| - 1 <= found <= counted < |service.history|
    ensures numbers == ProvisionalFromTwoReads(service.history[found].table, service.history[counted].table, NormalizeRows(RowsOf(old(list.items))), RowLe(service.collate))
    ensures list.items == WithNumbers(old(list.items), numbers) && service.Total() == old(service.Total())
  {
    var shown;
    shown, found, counted := service.AssignProvisionalNumbers(RowsOf(list.items));
    numbers := shown;
    SetItemRowNumbers(list, shown);
  }

  /** Both lists are numbered, the published one persistently. */
  method ShowBoth(service: ItemRowNumberingService, active: ItemList, published: ItemList)
    returns (revision: Option<string>, ghost persisted: nat, ghost found: nat, ghost counted: nat, ghost numbers: Table)
    requires service.Valid() && active != published
    modifies service, active, published
    ensures service.Valid() && old(service.history) <= service.history
    ensures |old(service.history)| - 1 <= persisted <= found <= counted < |service.history|
    ensures AllNumbered(service.history[persisted].table, NormalizeRows(RowsOf(old(published.items))))
    ensures numbers == ProvisionalFromTwoReads(service.history[found].table, service.history[counted].table, NormalizeRows(RowsOf(old(active.items))), RowLe(service.collate))
    ensures active.items == WithNumbers(old(active.items), numbers) && SameButNumbers(old(published.items), published.items)
    ensures revision.Some? ==> revision.value == service.revisionOf(service.history[persisted].table) && |old(service.history)| <= persisted
    ensures service.Total() == old(service.Total()) + (if revision.Some? then 1 else 0) && Commits(service.script) <= Commits(old(service.script))
  {
    ghost var publishedNumbers;
    revision, persisted, publishedNumbers := ShowPersisted(service, published);
    ghost var h1 := service.history;
    found, counted, numbers := ShowProvisional(service, active);
    PrefixAt(h1, service.history, persisted);
  }

  /** What has been observed by the time the revision is compared. */
  lemma PublishedObserved(h: seq<Version>, h': seq<Version>, revisionOf: Table -> string, le: (Row, Row) -> bool, rows: seq<Row>, publishedRows: seq<Row>,
                          expected: nat, persisted: nat, locked: bool, found: nat, counted: nat, numbers: Table)
    requires h <= h' && expected <= persisted <= found <= counted < |h|
    requires AllNumbered(h[persisted].table, NormalizeRows(publishedRows))
    requires numbers == ProvisionalFromTwoReads(h[found].table, h[counted].table, NormalizeRows(rows), le)
    requires revisionOf(h'[|h'| - 1].table) == revisionOf(h'[if locked then persisted else expected].table)
    ensures Succeeded(h', revisionOf, le, rows, Some(publishedRows), Observation(expected, persisted, locked, found, counted, |h'| - 1), numbers, revisionOf(h'[|h'| - 1].table))
  {
    PrefixAt(h, h', persisted);
    PrefixAt(h, h', found);
    PrefixAt(h, h', counted);
  }

  /** A revision that has changed since needs a commit. */
  /** What an attempt with published rows has seen, `h0` being the history before it, `h` that after its first
      step and `h'` that at its end. */
  lemma PublishedAttempt(h0: seq<Version>, h: seq<Version>, h': seq<Version>, revisionOf: Table -> string, le: (Row, Row) -> bool,
                         rows: seq<Row>, publishedRows: seq<Row>, expectedRevision: string, o: Observation, revision: Option<string>, numbers: Table)
    requires h0 != [] && h0 <= h <= h' && o.expected < |h0| <= o.persisted + 1 && o.persisted <= o.found <= o.counted < |h| && o.revised == |h'| - 1
    requires revisionOf(h0[o.expected].table) == expectedRevision && o.locked == revision.Some?
    requires revision.Some? ==> revision.value == revisionOf(h[o.persisted].table)
    requires AllNumbered(h[o.persisted].table, NormalizeRows(publishedRows))
    requires numbers == ProvisionalFromTwoReads(h[o.found].table, h[o.counted].table, NormalizeRows(rows), le)
    ensures h0 <= h'
    ensures var observed, wanted := revisionOf(h'[o.revised].table), if revision.Some? then revision.value else expectedRevision;
      && wanted == (if o.locked then revisionOf(h'[o.persisted].table) else expectedRevision)
      && (observed == wanted ==> Succeeded(h', revisionOf, le, rows, Some(publishedRows), o, numbers, observed))
      && (observed != wanted && revision == None && expectedRevision == revisionOf(h0[|h0| - 1].table) ==> |h0| < |h'|)
  {
    PrefixAt(h0, h, o.expected);
    PrefixAt(h, h', o.expected);
    PrefixAt(h, h', o.persisted);
    var observed, wanted := revisionOf(h'[o.revised].table), if revision.Some? then revision.value else expectedRevision;
    if observed == wanted {
      PublishedObserved(h, h', revisionOf, le, rows, publishedRows, o.expected, o.persisted, o.locked, o.found, o.counted, numbers);
    } else if revision == None && expectedRevision == revisionOf(h0[|h0| - 1].table) {
      ChangedSince(h0, h', revisionOf);
    }
  }

  lemma ChangedSince(h: seq<Version>, h': seq<Version>, revisionOf: Table -> string)
    requires h != [] && h <= h' && revisionOf(h'[|h'| - 1].table) != revisionOf(h[|h| - 1].table)
    ensures |h| < |h'|
  {
  }

  /** Published and draft rows differ: the published ones are persisted, the draft is numbered
      provisionally. */
  method AttemptPublished(service: ItemRowNumberingService, active: ItemList, published: ItemList, expectedRevision: string, ghost expected: nat)
    returns (outcome: AttemptOutcome, ghost o: Observation, ghost numbers: Table)
    requires service.Valid() && active != published
    requires expected < |service.history| && service.revisionOf(service.history[expected].table) == expectedRevision
    modifies service, active, published
    ensures service.Valid() && old(service.history) <= service.history
    ensures active.items == WithNumbers(old(active.items), numbers)
    ensures SameButNumbers(old(published.items), published.items)
    ensures o.expected == expected <= o.persisted <= o.revised < |service.history|
    ensures outcome.Accepted? ==>
      Succeeded(service.history, service.revisionOf, RowLe(service.collate), RowsOf(old(active.items)),
                Some(RowsOf(old(published.items))), o, numbers, outcome.revision)
    ensures outcome.Changed? ==> outcome.observed == service.revisionOf(service.history[o.revised].table) == service.revisionOf(service.table)
    ensures outcome.Accepted? <==>
      service.revisionOf(service.history[o.revised].table) == if o.locked then service.revisionOf(service.history[o.persisted].table) else expectedRevision
    ensures Commits(service.script) <= Commits(old(service.script))
    ensures outcome.Changed? && expectedRevision == service.revisionOf(old(service.table)) ==> Commits(service.script) < Commits(old(service.script))
  {
    ghost var h0, rows, publishedRows := service.history, RowsOf(active.items), RowsOf(published.items);
    var revision, persisted, found, counted, shown := ShowBoth(service, active, published);
    numbers := shown;
    ghost var h := service.history;
    var observed, revised := service.GetRevision();
    o := Observation(expected, persisted, revision.Some?, found, counted, revised);
    PublishedAttempt(h0, h, service.history, service.revisionOf, RowLe(service.collate), rows, publishedRows, expectedRevision, o, revision, numbers);
    outcome := if observed == (if revision.Some? then revision.value else expectedRevision) then Accepted(observed) else Changed(observed);
  }

  method AttemptActive(service: ItemRowNumberingService, active: ItemList, expectedRevision: string, ghost expected: nat)
    returns (outcome: AttemptOutcome, ghost o: Observation, ghost numbers: Table)
    requires service.Valid()
    requires expected < |service.history| && service.revisionOf(service.history[expected].table) == expectedRevision
    modifies service, active
    ensures service.Valid() && old(service.history) <= service.history
    ensures active.items == WithNumbers(old(active.items), numbers)
    ensures o.expected == expected <= o.persisted <= o.revised < |service.history|
    ensures outcome.Accepted? ==>
      Succeeded(service.history, service.revisionOf, RowLe(service.collate), RowsOf(old(active.items)),
                None, o, numbers, outcome.revision)
    ensures outcome.Changed? ==> outcome.observed == service.revisionOf(service.history[o.revised].table) == service.revisionOf(service.table)
    ensures outcome.Accepted? <==> o.locked || service.revisionOf(service.history[o.revised].table) == expectedRevision
    ensures Commits(service.script) <= Commits(old(service.script))
    ensures outcome.Changed? && expectedRevision == service.revisionOf(old(service.table)) ==> Commits(service.script) < Commits(old(service.script))
  {
    ghost var h0 := service.history;
    var revision;
    ghost var persisted;
    revision, persisted, numbers := ShowPersisted(service, active);
    ghost var h1 := service.history;
    PrefixAt(h0, service.history, expected);
    if revision.Some? {
      o := Observation(expected, persisted, true, persisted, persisted, persisted);
      return Accepted(revision.value), o, numbers;
    }
    var observed, revised := service.GetRevision();
    o := Observation(expected, persisted, false, persisted, persisted, revised);
    PrefixAt(h0, service.history, expected);
    PrefixAt(h1, service.history, persisted);
    outcome := if observed == expectedRevision then Accepted(observed) else Changed(observed);
  }

  // ------------------------------------------------------- exact if and only if nothing recurs

  /** Whatever a load observes, what it returns is the numbering of the table it names. */
  ghost predicate AlwaysExact(h: seq<Version>, revisionOf: Table -> string, le: (Row, Row) -> bool) {
    forall rows, published, o, numbers, revision :: Succeeded(h, revisionOf, le, rows, published, o, numbers, revision) ==>
      numbers == Provisional(h[o.revised].table, NormalizeRows(rows), le)
  }

  /** Keys as `normalizeRows` leaves them. */
  ghost predicate NormalKeys(t: Table) {
    forall k :: k in t ==> k != "" && Text.Trimmed(k)
  }

  lemma CommitKeepsKeysNormal(t: Table, w: Write, le: (Row, Row) -> bool)
    requires NormalKeys(t) && TotalPreorder(le)
    ensures NormalKeys(Commit(t, w, le))
  {
    var rows := NormalizeRows(w.rows);
    NormalizedRows(w.rows);
    forall k | k in Commit(t, w, le) && k !in t ensures k != "" && Text.Trimmed(k) {
      if w.AssignRows? { AssigningKeepsNumbers(t, rows, le); } else { RenumberingIsGapless(rows, le); }
      var i :| 0 <= i < |rows| && rows[i].rowKey == k;
    }
  }

  lemma {:induction false} KeysStayNormal(h: seq<Version>, le: (Row, Row) -> bool, n: nat)
    requires History(h, le) && TotalPreorder(le) && NormalKeys(h[0].table) && n < |h|
    ensures NormalKeys(h[n].table)
  {
    if n > 0 {
      KeysStayNormal(h, le, n - 1);
      CommitKeepsKeysNormal(h[n - 1].table, h[n].commit.value, le);
    }
  }

  function RowOf(key: string): Row { Row(key, "", "", "") }

  lemma OneRow(key: string)
    requires key != "" && Text.Trimmed(key)
    ensures NormalizeRows([RowOf(key)]) == [RowOf(key)]
  {
    assert NormalizeRows([RowOf(key)][..0]) == [];
    Text.TrimFixpoint(key);
  }

  lemma OneKey(row: Row, k: string)
    ensures HasKey([row], k) <==> k == row.rowKey
  {
    assert [row][0] == row;
  }

  lemma OneMissing(t: Table, row: Row)
    ensures Missing(t, [row]) == if row.rowKey in t then [] else [row]
  {
    assert [row][..0] == [];
    assert Missing(t, [row][..0]) == [];
  }

  lemma OneSorted(row: Row, le: (Row, Row) -> bool)
    ensures Sort([row], le) == [row]
  {
    assert [row][..0] == [];
  }

  lemma OneNumber(row: Row, start: nat)
    ensures NumberFrom([row], start) == map[row.rowKey := start + 1]
  {
    assert [row][..0] == [];
    assert NumberFrom([row][..0], start) == map[];
  }

  lemma OneNew(t: Table, row: Row, le: (Row, Row) -> bool)
    ensures row.rowKey in t ==> NewNumbers(t, [row], le) == map[]
    ensures row.rowKey !in t ==> NewNumbers(t, [row], le) == map[row.rowKey := MaxNumber(t) + 1]
  {
    OneMissing(t, row);
    if row.rowKey in t {
      assert Sort<Row>([], le) == [];
    } else {
      OneSorted(row, le);
      OneNumber(row, MaxNumber(t));
    }
  }

  /** A single row shows its number or the one above all numbers. */
  ghost function NumberShown(t: Table, key: string): nat {
    if key in t then t[key] else MaxNumber(t) + 1
  }

  lemma OneProvisional(t: Table, row: Row, le: (Row, Row) -> bool)
    ensures row.rowKey in Provisional(t, [row], le) && Provisional(t, [row], le)[row.rowKey] == NumberShown(t, row.rowKey)
  {
    OneNew(t, row, le);
    OneKey(row, row.rowKey);
  }

  ghost function LongerThan(keys: set<string>): (n: nat)
    ensures forall k :: k in keys ==> |k| < n
  {
    if keys == {} then 0
    else
      var k :| k in keys;
      var n := LongerThan(keys - {k});
      if n <= |k| then |k| + 1 else n
  }

  /** A key that is in neither of two tables. */
  lemma FreshKey(t: Table, u: Table) returns (key: string)
    ensures key != "" && Text.Trimmed(key) && key !in t && key !in u
  {
    key := seq(LongerThan(t.Keys + u.Keys) + 1, _ => 'a');
    assert !Text.IsSpace('a');
    assert key !in t.Keys + u.Keys;
  }

  lemma TablesDiffer(t: Table, u: Table) returns (key: string)
    requires t != u
    ensures (key in t) != (key in u) || (key in t && key in u && t[key] != u[key])
  {
    if t.Keys == u.Keys {
      key :| key in t && t[key] != u[key];
    } else if k :| k in t && k !in u {
      key := k;
    } else {
      assert t.Keys <= u.Keys && t.Keys != u.Keys;
      key :| key in u && key !in t;
    }
  }

  /** Two different tables number some row differently. */
  lemma SomeRowDiffers(t: Table, u: Table, le: (Row, Row) -> bool) returns (key: string)
    requires t != u && NormalKeys(t) && NormalKeys(u)
    ensures key != "" && Text.Trimmed(key)
    ensures Provisional(t, [RowOf(key)], le) != Provisional(u, [RowOf(key)], le)
  {
    if MaxNumber(t) != MaxNumber(u) { key := FreshKey(t, u); } else { key := TablesDiffer(t, u); }
    assert NumberShown(t, key) != NumberShown(u, key);
    OneProvisional(t, RowOf(key), le);
    OneProvisional(u, RowOf(key), le);
  }

  lemma NothingPublished(t: Table)
    ensures AllNumbered(t, NormalizeRows([]))
  {
    assert NormalizeRows([]) == [];
  }

  lemma NotAlwaysExact(h: seq<Version>, revisionOf: Table -> string, le: (Row, Row) -> bool, rows: seq<Row>, o: Observation)
    requires o.expected <= o.persisted == o.found == o.counted <= o.revised < |h| && !o.locked
    requires revisionOf(h[o.expected].table) == revisionOf(h[o.revised].table)
    requires AllNumbered(h[o.persisted].table, NormalizeRows([]))
    requires Provisional(h[o.found].table, NormalizeRows(rows), le) != Provisional(h[o.revised].table, NormalizeRows(rows), le)
    ensures !AlwaysExact(h, revisionOf, le)
  {
    assert Succeeded(h, revisionOf, le, rows, Some([]), o, Provisional(h[o.found].table, NormalizeRows(rows), le), revisionOf(h[o.revised].table));
  }

  /** A load that gets its numbers from one table and then the revision it expected from another. */
  lemma NumbersFromAnotherTable(h: seq<Version>, revisionOf: Table -> string, le: (Row, Row) -> bool, i: nat, m: nat, j: nat)
    requires i <= m <= j < |h| && revisionOf(h[i].table) == revisionOf(h[j].table) && h[m].table != h[j].table
    requires NormalKeys(h[m].table) && NormalKeys(h[j].table)
    ensures !AlwaysExact(h, revisionOf, le)
  {
    var key := SomeRowDiffers(h[m].table, h[j].table, le);
    OneRow(key);
    NothingPublished(h[m].table);
    NotAlwaysExact(h, revisionOf, le, [RowOf(key)], Observation(i, m, false, m, m, j));
  }

  /** Loads are exact, whatever they observe, if and only if no revision comes back after the table
      has changed. */
  lemma ExactExactlyWithoutRecurrence(h: seq<Version>, revisionOf: Table -> string, le: (Row, Row) -> bool)
    requires History(h, le) && TotalPreorder(le) && NormalKeys(h[0].table)
    ensures AlwaysExact(h, revisionOf, le) <==> NoRecurrence(h, revisionOf)
  {
    if NoRecurrence(h, revisionOf) {
      forall rows, published, o, numbers, revision | Succeeded(h, revisionOf, le, rows, published, o, numbers, revision)
        ensures numbers == Provisional(h[o.revised].table, NormalizeRows(rows), le)
      {
        SuccessIsExact(h, revisionOf, le, rows, published, o, numbers, revision);
      }
    } else {
      var i, j, k :| 0 <= i <= k <= j < |h| && revisionOf(h[i].table) == revisionOf(h[j].table) && h[k].table != h[i].table;
      var m := if h[k].table != h[j].table then k else i;
      KeysStayNormal(h, le, m);
      KeysStayNormal(h, le, j);
      NumbersFromAnotherTable(h, revisionOf, le, i, m, j);
    }
  }

  // ------------------------------------------------------------------ a revision that recurs

  /** The four versions of a table that is replaced, extended and restored. */
  ghost function ReplacedAndRestored(a: Row, b: Row): seq<Version> {
    [Version(map["a" := 1], None),
     Version(map["b" := 1], Some(RenumberRows([b]))),
     Version(map["b" := 1, "a" := 2], Some(AssignRows([a]))),
     Version(map["a" := 1], Some(RenumberRows([a])))]
  }

  lemma ReplacedAndRestoredIsHistory(a: Row, b: Row, le: (Row, Row) -> bool)
    requires a.rowKey == "a" && b.rowKey == "b"
    ensures History(ReplacedAndRestored(a, b), le)
  {
    RenumberStep(map["a" := 1], b, le);
    AssignStep(a, b, le);
    RenumberStep(map["b" := 1, "a" := 2], a, le);
    ThreeCommits(map["a" := 1], map["b" := 1], map["b" := 1, "a" := 2], map["a" := 1],
                 RenumberRows([b]), AssignRows([a]), RenumberRows([a]), le);
  }

  lemma ThreeCommits(t0: Table, t1: Table, t2: Table, t3: Table, w1: Write, w2: Write, w3: Write, le: (Row, Row) -> bool)
    requires OneToOne(t0)
    requires t1 == Commit(t0, w1, le) && t2 == Commit(t1, w2, le) && t3 == Commit(t2, w3, le)
    ensures History([Version(t0, None), Version(t1, Some(w1)), Version(t2, Some(w2)), Version(t3, Some(w3))], le)
  {
  }

  lemma RenumberStep(t: Table, row: Row, le: (Row, Row) -> bool)
    requires row.rowKey == "a" || row.rowKey == "b"
    ensures Commit(t, RenumberRows([row]), le) == map[row.rowKey := 1]
  {
    NormalizeOne(row);
    RenumberOne(row, le);
  }

  lemma AssignStep(a: Row, b: Row, le: (Row, Row) -> bool)
    requires a.rowKey == "a" && b.rowKey == "b"
    ensures Commit(map["b" := 1], AssignRows([a]), le) == map["b" := 1, "a" := 2]
  {
    NormalizeOne(a);
    AssignOneAbove(b, a, le);
  }

  /** Without the assumption the loop can return wrong numbers: the table is replaced and
      restored between the read of the expected revision and the comparison, and the numbers
      were read in between. */
  lemma RecurrenceBreaksExactness(revisionOf: Table -> string, le: (Row, Row) -> bool)
    ensures exists h: seq<Version>, rows: seq<Row>, o: Observation, numbers: Table, revision: string ::
      && History(h, le)
      && Succeeded(h, revisionOf, le, rows, None, o, numbers, revision)
      && numbers != Provisional(h[o.revised].table, NormalizeRows(rows), le)
  {
    var a, b := Row("a", "", "", ""), Row("b", "", "", "");
    var h := ReplacedAndRestored(a, b);
    ReplacedAndRestoredIsHistory(a, b, le);
    NormalizeOne(a);
    assert HasKey([a], "a") by { assert [a][0].rowKey == "a"; }
    var o := Observation(0, 2, false, 2, 2, 3);
    var numbers := Lookup(h[2].table, [a]);
    AssigningAgain(h[3].table, [a], le);
    assert numbers["a"] == 2 && Provisional(h[3].table, [a], le)["a"] == 1;
    assert Succeeded(h, revisionOf, le, [a], None, o, numbers, revisionOf(h[3].table));
  }

  lemma NormalizeOne(row: Row)
    requires row.rowKey == "a" || row.rowKey == "b"
    ensures NormalizeRows([row]) == [row]
  {
    assert NormalizeRows([row][..0]) == [];
    Text.TrimFixpoint(row.rowKey);
  }

  lemma RenumberOne(row: Row, le: (Row, Row) -> bool)
    ensures Renumbered([row], le) == map[row.rowKey := 1]
  {
    OneSorted(row, le);
    OneNumber(row, 0);
  }

  lemma AssignOneAbove(b: Row, a: Row, le: (Row, Row) -> bool)
    requires b.rowKey == "b" && a.rowKey == "a"
    ensures Assigned(map["b" := 1], [a], le) == map["b" := 1, "a" := 2]
  {
    var t: Table := map["b" := 1];
    OneMissing(t, a);
    OneSorted(a, le);
    assert t["b"] <= MaxNumber(t);
    assert MaxNumber(t) == 0 || exists k :: k in t && t[k] == MaxNumber(t);
    OneNumber(a, 1);
  }
}
