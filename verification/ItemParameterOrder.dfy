/** backend/src/items/item-parameter-import.pipeline.ts: exactly when the order of the lines of an
    import does not matter. */
module ItemParameterOrder {
  import opened ItemParameterImport
  import opened ItemParameterPlan
  import opened ItemParameterOutcome
  import opened ItemParameterResults
  import opened ItemParameterLines
  import opened ItemRowKey
  import opened JsMaps
  import opened Outcomes
  import opened Sorting
  import opened Text

  // ------------------------------------------------------------------------- files of two lines
  //
  // A file with columns for the item, the sub id, one property and the booklet; the booklets are
  // left blank, so that occurrences are not imported and a row may be named by several lines.

  function OneColumn(p: Property): Columns { Columns(0, Some(1), map[p := 2], Some(3), None, false) }

  predicate WholeProperty(p: Property) { p == ItemTimeSeconds || p == StimulusTimeSeconds }

  lemma OneColumnImported(p: Property, ps: seq<Property>, q: Property)
    requires (ps == SCALARS || ps == TEXTS) && WholeProperty(p)
    ensures q in Imported(OneColumn(p), ps) <==> q == p && ps == SCALARS
  {
    ImportedOf(OneColumn(p), ps, q);
    assert SCALARS[5] == ItemTimeSeconds && SCALARS[6] == StimulusTimeSeconds;
  }

  function CellValues(env: Env, p: Property, cell: string): map<Property, Value>
    requires Valid(env, p, cell)
  {
    if cell == "" then map[] else map[p := ValueOf(env, p, cell)]
  }

  lemma OneColumnReads(env: Env, p: Property, row: Row, ps: seq<Property>)
    requires |row| == 3 && (ps == SCALARS || ps == TEXTS) && WholeProperty(p) && Valid(env, p, Trim(row[2]))
    ensures var read := ReadValues(env, OneColumn(p), row, Imported(OneColumn(p), ps));
      read.Ok? && read.value == if ps == TEXTS then map[] else CellValues(env, p, Trim(row[2]))
  {
    var columns := OneColumn(p);
    forall q | q in Imported(columns, ps) ensures Valid(env, q, Cell(row, ColumnOf(columns, q))) { OneColumnImported(p, ps, q); }
    ReadsValid(env, columns, row, Imported(columns, ps));
    var values := ReadValues(env, columns, row, Imported(columns, ps)).value;
    forall q ensures q in values <==> q == p && ps == SCALARS && Trim(row[2]) != "" {
      OneColumnImported(p, ps, q);
      ReadExactly(env, columns, row, Imported(columns, ps), q);
    }
    OneColumnImported(p, ps, p);
    ReadExactly(env, columns, row, Imported(columns, ps), p);
  }

  lemma OneColumnContent(env: Env, p: Property, row: Row)
    requires |row| == 3 && WholeProperty(p) && Valid(env, p, Trim(row[2]))
    ensures ContentOf(env, OneColumn(p), false, row) == Ok(Content(CellValues(env, p, Trim(row[2])), Unasked))
  {
    OneColumnReads(env, p, row, SCALARS);
    OneColumnReads(env, p, row, TEXTS);
    var none: map<Property, Value> := map[];
    assert CellValues(env, p, Trim(row[2])) + none == CellValues(env, p, Trim(row[2]));
  }

  /** What a line is read as. */
  lemma LineReads(env: Env, p: Property, items: seq<Item>, raw: string, subId: string, cell: string, item: Item)
    requires WholeProperty(p) && Trimmed(raw) && raw != "" && FindItem(items, raw) == Some(item)
    requires Trimmed(subId) && Trimmed(cell) && Valid(env, p, cell)
    ensures VerdictOf(env, OneColumn(p), false, items, [raw, subId, cell]) == Matched(item, subId, Ok(Content(CellValues(env, p, cell), Unasked)))
  {
    TrimFixpoint(raw);
    TrimFixpoint(subId);
    TrimFixpoint(cell);
    OneColumnContent(env, p, [raw, subId, cell]);
    assert !Blank([raw, subId, cell]) by { assert Trim([raw, subId, cell][0]) != ""; }
  }

  lemma NoOccurrences(p: Property, rows: seq<Row>)
    requires forall i :: 0 <= i < |rows| ==> |rows[i]| == 3
    ensures !WithOccurrences(OneColumn(p), rows) && !Single(OneColumn(p))
  {
    assert p in OneColumn(p).at;
  }

  /** A line that names a row and carries no other value than `x`. */
  predicate Simple(v: Verdict, x: Value) {
    && Accepted(v) && v.content.value.mention == Unasked
    && forall p :: p in v.content.value.values ==> v.content.value.values[p] == x
  }

  predicate OneForms(v: Verdict, w: Verdict)
    requires v.Matched? && w.Matched?
  {
    v.item.uuid == w.item.uuid ==> (v.subId == "" <==> w.subId == "")
  }

  function GroupOf(v: Verdict): Group
    requires Accepted(v)
  {
    Extended(Group(v.item.uuid, v.item.unitId, v.subId, map[], [], false), v.content.value)
  }

  /** Two lines make two groups, or one group that is that of the first line. */
  lemma TwoLinesGather(v: Verdict, w: Verdict, x: Value)
    requires Simple(v, x) && Simple(w, x) && OneForms(v, w)
    ensures Gather(false, [v, w]).Ok?
    ensures Gather(false, [v, w]).value.groups ==
      var first := EmptyMap().Put(RowKeyOf(v), GroupOf(v));
      first.Put(RowKeyOf(w), if RowKeyOf(w) == RowKeyOf(v) then Extended(GroupOf(v), w.content.value) else GroupOf(w))
  {
    assert [v, w][..1] == [v] && [v][..0] == [];
    assert Gather(false, [v]) == Take(false, NOTHING_GATHERED, v);
    assert Gather(false, [v, w]) == Take(false, Gather(false, [v]).value, w);
  }

  /** Every group has no value of a property, or this one. */
  ghost predicate OnlyOne(groups: JsMap<string, Group>, x: Value) {
    forall k, p :: groups.Has(k) ==> Values(groups.at[k], p) == [] || Values(groups.at[k], p) == [x]
  }

  lemma ExtendedByOne(g: Group, v: Verdict, x: Value, p: Property)
    requires Simple(v, x) && (Values(g, p) == [] || Values(g, p) == [x])
    ensures Values(Extended(g, v.content.value), p) == [] || Values(Extended(g, v.content.value), p) == [x]
  {
  }

  lemma TwoLinesHaveOne(v: Verdict, w: Verdict, x: Value)
    requires Simple(v, x) && Simple(w, x) && OneForms(v, w)
    ensures Gather(false, [v, w]).Ok? && OnlyOne(Gather(false, [v, w]).value.groups, x)
  {
    TwoLinesGather(v, w, x);
    var groups := Gather(false, [v, w]).value.groups;
    forall k, p | groups.Has(k) ensures Values(groups.at[k], p) == [] || Values(groups.at[k], p) == [x] {
      ExtendedByOne(Group(v.item.uuid, v.item.unitId, v.subId, map[], [], false), v, x, p);
      ExtendedByOne(Group(w.item.uuid, w.item.unitId, w.subId, map[], [], false), w, x, p);
      ExtendedByOne(GroupOf(v), w, x, p);
    }
  }

  lemma {:induction false} ScopesHaveOne(groups: JsMap<string, Group>, order: seq<string>, p: Property, unit: bool, x: Value)
    requires OnlyOne(groups, x)
    ensures forall c :: Scoped(groups, order, p, unit).Has(c) ==> Scoped(groups, order, p, unit).at[c] == [] || Scoped(groups, order, p, unit).at[c] == [x]
  {
    if order != [] {
      ScopesHaveOne(groups, order[..|order| - 1], p, unit, x);
      var key := order[|order| - 1];
      if groups.Has(key) { assert Values(groups.at[key], p) == [] || Values(groups.at[key], p) == [x]; }
    }
  }

  lemma NoConflictOfOne(setup: Setup, groups: JsMap<string, Group>, x: Value)
    requires OnlyOne(groups, x)
    ensures NoConflict(setup, groups)
  {
    forall k | k in groups.at ensures GroupAgrees(groups.at[k]) {
      assert groups.Has(k);
      forall p | p in groups.at[k].values ensures |groups.at[k].values[p]| <= 1 { assert Values(groups.at[k], p) == groups.at[k].values[p]; }
    }
    ScopesHaveOne(groups, groups.order, ItemTimeSeconds, false, x);
    ScopesHaveOne(groups, groups.order, StimulusTimeSeconds, true, x);
    ScopesHaveOne(groups, groups.order, CompetenceLevel, false, x);
  }

  /** An import whose lines gather without conflict. */
  lemma ImportIs(env: Env, columns: Columns, items: seq<Item>, source: Table, rows: seq<Row>, vs: seq<Verdict>)
    requires vs == Verdicts(env, columns, WithOccurrences(columns, rows), items, rows) && Gather(Single(columns), vs).Ok?
    requires NoConflict(SetupOf(env, columns, items, source, rows), Gather(Single(columns), vs).value.groups)
    ensures Import(env, columns, items, source, rows) == Ok(After(SetupOf(env, columns, items, source, rows), Single(columns), vs))
  {
  }

  lemma TwoVerdicts(env: Env, p: Property, items: seq<Item>, source: Table, q: Row, r: Row, v: Verdict, w: Verdict)
    requires |q| == |r| == 3 && VerdictOf(env, OneColumn(p), false, items, q) == v && VerdictOf(env, OneColumn(p), false, items, r) == w
    ensures Verdicts(env, OneColumn(p), WithOccurrences(OneColumn(p), [q, r]), items, [q, r]) == [v, w] && !Single(OneColumn(p))
    ensures SetupOf(env, OneColumn(p), items, source, [q, r]) == Setup(env, OneColumn(p), false, items, source)
  {
    NoOccurrences(p, [q, r]);
  }

  /** Such a file goes through. */
  lemma TwoLinesImport(env: Env, p: Property, items: seq<Item>, source: Table, q: Row, r: Row, v: Verdict, w: Verdict, x: Value)
    requires |q| == |r| == 3 && VerdictOf(env, OneColumn(p), false, items, q) == v && VerdictOf(env, OneColumn(p), false, items, r) == w
    requires Simple(v, x) && Simple(w, x) && OneForms(v, w)
    ensures Gather(false, [v, w]).Ok?
    ensures Import(env, OneColumn(p), items, source, [q, r]) == Ok(After(Setup(env, OneColumn(p), false, items, source), false, [v, w]))
  {
    TwoVerdicts(env, p, items, source, q, r, v, w);
    TwoLinesHaveOne(v, w, x);
    NoConflictOfOne(Setup(env, OneColumn(p), false, items, source), Gather(false, [v, w]).value.groups, x);
    ImportIs(env, OneColumn(p), items, source, [q, r], [v, w]);
  }

  /** The same in both orders. */
  lemma BothOrdersImport(env: Env, p: Property, items: seq<Item>, source: Table, q: Row, r: Row, v: Verdict, w: Verdict, x: Value)
    requires |q| == |r| == 3 && VerdictOf(env, OneColumn(p), false, items, q) == v && VerdictOf(env, OneColumn(p), false, items, r) == w
    requires Simple(v, x) && Simple(w, x) && OneForms(v, w) && source.Valid()
    ensures Gather(false, [v, w]).Ok? && Gather(false, [w, v]).Ok?
    ensures var setup := Setup(env, OneColumn(p), false, items, source);
      After(setup, false, [v, w]).at != After(setup, false, [w, v]).at ==> OrderMatters(env, OneColumn(p), items, source, q, r)
  {
    TwoLinesImport(env, p, items, source, q, r, v, w, x);
    TwoLinesImport(env, p, items, source, r, q, w, v, x);
  }

  /** Both orders of two rows import, and what they leave behind differs. */
  ghost predicate OrderMatters(env: Env, columns: Columns, items: seq<Item>, source: Table, q: Row, r: Row) {
    && source.Valid()
    && Import(env, columns, items, source, [q, r]).Ok? && Import(env, columns, items, source, [r, q]).Ok?
    && Import(env, columns, items, source, [q, r]).value.at != Import(env, columns, items, source, [r, q]).value.at
  }

  // ------------------------------------------------------------------------- keys that collide

  lemma FirstLineCounts(single: bool, v: Verdict, w: Verdict)
    requires Accepted(v) && Accepted(w) && RowKeyOf(v) == RowKeyOf(w) && Gather(single, [v, w]).Ok?
    ensures var groups := Gather(single, [v, w]).value.groups;
      && groups.Valid() && (forall k :: groups.Has(k) <==> k == RowKeyOf(v))
      && groups.at[RowKeyOf(v)].uuid == v.item.uuid && groups.at[RowKeyOf(v)].subId == v.subId
  {
    forall k ensures Gather(single, [v, w]).value.groups.Has(k) <==> k == RowKeyOf(v) {
      GroupKeys(single, [v, w], k);
      if k == RowKeyOf(v) { assert v in [v, w] && OfRow(v, k); }
    }
    assert [v, w][..1] == [v] && [v][..0] == [];
    assert Gather(single, [v, w]) == Take(single, Gather(single, [v]).value, w);
    assert Gather(single, [v]) == Take(single, NOTHING_GATHERED, v);
  }

  function IdentityOf(uuid: string, subId: string, p: Property): Value { Txt(if p == ItemUuid then uuid else subId) }

  lemma IdentityNamed(setup: Setup, key: string, g: Group, p: Property, b: Action)
    requires setup.source == EmptyMap() && (p == ItemUuid || p == SubId)
    ensures GroupNames(setup, key, g, key, p, b) <==> g.subId != "" && b == Set(IdentityOf(g.uuid, g.subId, p))
  {
    assert PartialKeys(setup.source.order, g.uuid) == [];
    assert Affected(setup.source, key, g) == [key];
  }

  lemma SoleGroupNames(setup: Setup, groups: JsMap<string, Group>, key: string, p: Property, b: Action)
    requires groups.Valid() && groups.Has(key) && (forall k :: groups.Has(k) ==> k == key) && (p == ItemUuid || p == SubId)
    ensures Names(AllMutations(setup, groups), key, p, b) <==> GroupNames(setup, key, groups.at[key], key, p, b)
  {
    AllMutationsName(setup, groups, key, p, b);
    if PlanNames(setup, groups, key, p, b) {
      OwnProperties(setup, groups, key, p, b);
      var k :| groups.Has(k) && GroupNames(setup, k, groups.at[k], key, p, b);
    }
    if GroupNames(setup, key, groups.at[key], key, p, b) { assert RowsName(setup, groups, key, p, b); }
  }

  /** Starting from nothing, the row of a group without a sub id gets no identity. */
  lemma IdentityCells(setup: Setup, groups: JsMap<string, Group>, key: string, p: Property)
    requires setup.source == EmptyMap() && groups.Valid() && groups.Has(key) && (forall k :: groups.Has(k) ==> k == key)
    requires p == ItemUuid || p == SubId
    ensures var g := groups.at[key];
      CellOf(Applied(setup.source, AllMutations(setup, groups)), key, p) == if g.subId == "" then None else Some(IdentityOf(g.uuid, g.subId, p))
  {
    var g, ms := groups.at[key], AllMutations(setup, groups);
    var a := Set(IdentityOf(g.uuid, g.subId, p));
    forall b ensures Names(ms, key, p, b) <==> g.subId != "" && b == a {
      SoleGroupNames(setup, groups, key, p, b);
      IdentityNamed(setup, key, g, p, b);
    }
    AppliedCell(setup.source, ms, key, p, a);
  }

  lemma TwoLines(setup: Setup, single: bool, v: Verdict, w: Verdict, p: Property)
    requires setup.source == EmptyMap() && (p == ItemUuid || p == SubId)
    requires Accepted(v) && Accepted(w) && RowKeyOf(v) == RowKeyOf(w) && Gather(single, [v, w]).Ok?
    ensures CellOf(After(setup, single, [v, w]), RowKeyOf(v), p) == if v.subId == "" then None else Some(IdentityOf(v.item.uuid, v.subId, p))
  {
    FirstLineCounts(single, v, w);
    IdentityCells(setup, Gather(single, [v, w]).value.groups, RowKeyOf(v), p);
  }

  lemma TwoOrders(setup: Setup, single: bool, u: Verdict, v: Verdict)
    requires setup.source == EmptyMap() && Gather(single, [u, v]).Ok? && Gather(single, [v, u]).Ok?
    requires Accepted(u) && Accepted(v) && RowKeyOf(u) == RowKeyOf(v) && u.subId != "" && (u.item.uuid != v.item.uuid || u.subId != v.subId)
    ensures After(setup, single, [u, v]).at != After(setup, single, [v, u]).at
  {
    var p := if u.item.uuid != v.item.uuid then ItemUuid else SubId;
    TwoLines(setup, single, u, v, p);
    TwoLines(setup, single, v, u, p);
    DifferentCells(After(setup, single, [u, v]), After(setup, single, [v, u]), RowKeyOf(u), p);
  }

  lemma DifferentCells(s: Table, t: Table, k: string, p: Property)
    requires CellOf(s, k, p) != CellOf(t, k, p)
    ensures s.at != t.at
  {
  }

  lemma ImportOfTwo(env: Env, columns: Columns, items: seq<Item>, q: Row, r: Row)
    requires Import(env, columns, items, EmptyMap(), [q, r]).Ok?
    ensures var setup := SetupOf(env, columns, items, EmptyMap(), [q, r]);
      var u, v := VerdictOf(env, columns, setup.withOccurrences, items, q), VerdictOf(env, columns, setup.withOccurrences, items, r);
      Gather(Single(columns), [u, v]).Ok? && Import(env, columns, items, EmptyMap(), [q, r]).value == After(setup, Single(columns), [u, v])
  {
    var w := WithOccurrences(columns, [q, r]);
    assert Verdicts(env, columns, w, items, [q, r]) == [VerdictOf(env, columns, w, items, q), VerdictOf(env, columns, w, items, r)];
  }

  lemma SwappedColumnState(columns: Columns, q: Row, r: Row)
    ensures WithOccurrences(columns, [q, r]) == WithOccurrences(columns, [r, q])
  {
    assert SameRows([q, r], [r, q]);
    SameColumnState(columns, [q, r], [r, q]);
    SameColumnState(columns, [r, q], [q, r]);
  }

  /** Two lines that have the same key but name different rows leave behind the row of whichever comes
      first. */
  lemma OrderMattersOnCollision(env: Env, columns: Columns, items: seq<Item>, q: Row, r: Row)
    requires Import(env, columns, items, EmptyMap(), [q, r]).Ok? && Import(env, columns, items, EmptyMap(), [r, q]).Ok?
    requires var w := WithOccurrences(columns, [q, r]);
      var u, v := VerdictOf(env, columns, w, items, q), VerdictOf(env, columns, w, items, r);
      Accepted(u) && Accepted(v) && RowKeyOf(u) == RowKeyOf(v) && u.subId != "" && (u.item.uuid != v.item.uuid || u.subId != v.subId)
    ensures Import(env, columns, items, EmptyMap(), [q, r]).value.at != Import(env, columns, items, EmptyMap(), [r, q]).value.at
  {
    SwappedColumnState(columns, q, r);
    var setup := SetupOf(env, columns, items, EmptyMap(), [q, r]);
    assert SetupOf(env, columns, items, EmptyMap(), [r, q]) == setup;
    var u, v := VerdictOf(env, columns, setup.withOccurrences, items, q), VerdictOf(env, columns, setup.withOccurrences, items, r);
    ImportOfTwo(env, columns, items, q, r);
    ImportOfTwo(env, columns, items, r, q);
    TwoOrders(setup, Single(columns), u, v);
  }

  /** A name by which an item can be found. */
  ghost predicate NameOf(items: seq<Item>, raw: string, item: Item) {
    Trimmed(raw) && raw != "" && FindItem(items, raw) == Some(item)
  }

  lemma CollidingLines(env: Env, items: seq<Item>, q: Row, r: Row, x: Verdict, y: Verdict)
    requires |q| == |r| == 3
    requires VerdictOf(env, OneColumn(ItemTimeSeconds), false, items, q) == x && VerdictOf(env, OneColumn(ItemTimeSeconds), false, items, r) == y
    requires Simple(x, Null) && Simple(y, Null) && x.item.uuid != y.item.uuid && x.subId != "" && RowKeyOf(x) == RowKeyOf(y)
    ensures OrderMatters(env, OneColumn(ItemTimeSeconds), items, EmptyMap(), q, r)
  {
    BothOrdersImport(env, ItemTimeSeconds, items, EmptyMap(), q, r, x, y, Null);
    TwoOrders(Setup(env, OneColumn(ItemTimeSeconds), false, items, EmptyMap()), false, x, y);
  }

  /** A uuid that is a row key of another one: a line for the row and one for the item. */
  lemma RowKeyCollides(env: Env, items: seq<Item>, u: Item, v: Item, rawU: string, rawV: string, s: string) returns (q: Row, r: Row)
    requires NameOf(items, rawU, u) && NameOf(items, rawV, v)
    requires Trimmed(s) && s != "" && BuildItemRowKey(u.uuid, s) == Trim(v.uuid)
    ensures q == [rawU, s, ""] && r == [rawV, "", ""]
    ensures OrderMatters(env, OneColumn(ItemTimeSeconds), items, EmptyMap(), q, r)
  {
    q, r := [rawU, s, ""], [rawV, "", ""];
    LineReads(env, ItemTimeSeconds, items, rawU, s, "", u);
    LineReads(env, ItemTimeSeconds, items, rawV, "", "", v);
    SelfApart(u.uuid);
    var none := Ok(Content(map[], Unasked));
    CollidingLines(env, items, q, r, Matched(u, s, none), Matched(v, "", none));
  }

  // ---------------------------------------------------------- uuids that differ in white space only

  /** The first line decides whose time is cleared. */
  lemma FirstLineClears(setup: Setup, v: Verdict, w: Verdict, k: string)
    requires Simple(v, Null) && Simple(w, Null) && OneForms(v, w) && RowKeyOf(v) == RowKeyOf(w)
    requires v.content.value.values == map[] && w.content.value.values == map[]
    requires setup.columns == OneColumn(ItemTimeSeconds) && UuidOf(k) != Some(v.item.uuid)
    ensures Gather(false, [v, w]).Ok?
    ensures CellOf(After(setup, false, [v, w]), k, ItemTimeSeconds) == if k == v.item.uuid then None else CellOf(setup.source, k, ItemTimeSeconds)
  {
    TwoLinesGather(v, w, Null);
    GroupKeys(false, [v, w], "");
    var groups, ms := Gather(false, [v, w]).value.groups, AllMutations(setup, Gather(false, [v, w]).value.groups);
    forall b ensures Names(ms, k, ItemTimeSeconds, b) <==> k == v.item.uuid && b == Clear { OnlyItemCleared(setup, groups, RowKeyOf(v), k, b); }
    AppliedCell(setup.source, ms, k, ItemTimeSeconds, Clear);
  }

  ghost predicate Sole(groups: JsMap<string, Group>, key: string) {
    groups.Valid() && groups.Has(key) && forall l :: groups.Has(l) ==> l == key
  }

  lemma ItemTimesPlanned(setup: Setup, groups: JsMap<string, Group>, k: string, b: Action)
    ensures PlanNames(setup, groups, k, ItemTimeSeconds, b)
       <==> ItemsName(setup.source, ItemTimeSeconds, ScopedValues(setup, groups, ItemTimeSeconds, false), k, ItemTimeSeconds, b)
  {
    if PlanNames(setup, groups, k, ItemTimeSeconds, b) { OwnProperties(setup, groups, k, ItemTimeSeconds, b); }
  }

  lemma SoleItemCleared(source: Table, scoped: JsMap<string, seq<Value>>, uuid: string, k: string, b: Action)
    requires scoped.Has(uuid) && scoped.at[uuid] == [] && (forall u :: scoped.Has(u) ==> u == uuid) && UuidOf(k) != Some(uuid)
    ensures ItemsName(source, ItemTimeSeconds, scoped, k, ItemTimeSeconds, b) <==> k == uuid && b == Clear
  {
    PartialKeysOf(source.order, uuid, k);
    if k == uuid && b == Clear { assert scoped.Has(uuid) && ItemNames(source, uuid, ItemTimeSeconds, scoped.at[uuid], k, ItemTimeSeconds, b); }
  }

  /** The plan of one group without values clears the time of its item. */
  lemma OnlyItemCleared(setup: Setup, groups: JsMap<string, Group>, key: string, k: string, b: Action)
    requires Sole(groups, key) && Values(groups.at[key], ItemTimeSeconds) == []
    requires ItemTimeSeconds in setup.columns.at && UuidOf(k) != Some(groups.at[key].uuid)
    ensures Names(AllMutations(setup, groups), k, ItemTimeSeconds, b) <==> k == groups.at[key].uuid && b == Clear
  {
    var scoped := ScopedValues(setup, groups, ItemTimeSeconds, false);
    AllMutationsName(setup, groups, k, ItemTimeSeconds, b);
    ItemTimesPlanned(setup, groups, k, b);
    forall u ensures (scoped.Has(u) <==> u == groups.at[key].uuid) && (scoped.Has(u) ==> scoped.at[u] == []) { OneScope(setup, groups, key, u); }
    SoleItemCleared(setup.source, scoped, groups.at[key].uuid, k, b);
  }

  lemma OneScope(setup: Setup, groups: JsMap<string, Group>, key: string, u: string)
    requires Sole(groups, key) && Values(groups.at[key], ItemTimeSeconds) == [] && ItemTimeSeconds in setup.columns.at
    ensures var scoped := ScopedValues(setup, groups, ItemTimeSeconds, false);
      (scoped.Has(u) <==> u == groups.at[key].uuid) && (scoped.Has(u) ==> scoped.at[u] == [])
  {
    var scoped := ScopedValues(setup, groups, ItemTimeSeconds, false);
    ScopedIs(setup, groups, ItemTimeSeconds, false, u, Null);
    if u == groups.at[key].uuid { assert InScope(groups, key, false, u); }
    if scoped.Has(u) && scoped.at[u] != [] {
      ScopedIs(setup, groups, ItemTimeSeconds, false, u, scoped.at[u][0]);
    }
  }

  lemma SameTrimLines(env: Env, items: seq<Item>, source: Table, q: Row, r: Row, x: Verdict, y: Verdict)
    requires |q| == |r| == 3
    requires VerdictOf(env, OneColumn(ItemTimeSeconds), false, items, q) == x && VerdictOf(env, OneColumn(ItemTimeSeconds), false, items, r) == y
    requires Simple(x, Null) && Simple(y, Null) && x.item.uuid != y.item.uuid && RowKeyOf(x) == RowKeyOf(y)
    requires x.content.value.values == map[] && y.content.value.values == map[]
    requires UuidOf(x.item.uuid) != Some(x.item.uuid) && UuidOf(x.item.uuid) != Some(y.item.uuid)
    requires source.Valid() && CellOf(source, x.item.uuid, ItemTimeSeconds).Some?
    ensures OrderMatters(env, OneColumn(ItemTimeSeconds), items, source, q, r)
  {
    var p, k := ItemTimeSeconds, x.item.uuid;
    BothOrdersImport(env, p, items, source, q, r, x, y, Null);
    var setup := Setup(env, OneColumn(p), false, items, source);
    FirstLineClears(setup, x, y, k);
    FirstLineClears(setup, y, x, k);
    DifferentCells(After(setup, false, [x, y]), After(setup, false, [y, x]), k, p);
  }

  lemma RowKeyIsLonger(u: string, s: string)
    requires Trimmed(s) && s != ""
    ensures |BuildItemRowKey(u, s)| > |Trim(u)|
  {
    TrimFixpoint(s);
  }

  /** Nothing but a longer key belongs to a uuid. */
  lemma NotOwned(k: string, v: string)
    requires Trim(k) == Trim(v)
    ensures UuidOf(k) != Some(v)
  {
    if UuidOf(k) == Some(v) {
      var t := OwnedKey(k, v);
      RowKeyIsLonger(v, t);
    }
  }

  /** Two uuids that differ in white space only share their rows, but not their times. */
  lemma SameTrimCollides(env: Env, items: seq<Item>, u: Item, v: Item, rawU: string, rawV: string) returns (source: Table, q: Row, r: Row)
    requires NameOf(items, rawU, u) && NameOf(items, rawV, v)
    requires u.uuid != v.uuid && Trim(u.uuid) == Trim(v.uuid)
    ensures |q| == |r| == 3
    ensures OrderMatters(env, OneColumn(ItemTimeSeconds), items, source, q, r)
  {
    q, r := [rawU, "", ""], [rawV, "", ""];
    source := JsMap([u.uuid], map[u.uuid := map[ItemTimeSeconds := Null]]);
    LineReads(env, ItemTimeSeconds, items, rawU, "", "", u);
    LineReads(env, ItemTimeSeconds, items, rawV, "", "", v);
    NotOwned(u.uuid, u.uuid);
    NotOwned(u.uuid, v.uuid);
    var none := Ok(Content(map[], Unasked));
    SameTrimLines(env, items, source, q, r, Matched(u, "", none), Matched(v, "", none));
  }

  // ------------------------------------------------------------------- one uuid in two units

  lemma {:induction false} AppliedInTurn(t: Table, first: seq<Mutation>, second: seq<Mutation>)
    ensures Applied(t, first + second) == Applied(Applied(t, first), second)
  {
    if second == [] {
      assert first + second == first;
    } else {
      assert (first + second)[..|first + second| - 1] == first + second[..|second| - 1];
      AppliedInTurn(t, first, second[..|second| - 1]);
    }
  }

  /** What the last unit makes of the cell of one of its items, when nothing is stored yet. */
  lemma LastUnitCell(t: Table, items: seq<Item>, c: string, values: seq<Value>, k: string)
    requires k in UuidsOfUnit(items, c)
    ensures CellOf(Applied(t, UnitMutations(EmptyMap(), StimulusTimeSeconds, values, UuidsOfUnit(items, c))), k, StimulusTimeSeconds)
         == Outcome(SetOrClear(values), None)
  {
    var p, a, ms := StimulusTimeSeconds, SetOrClear(values), UnitMutations(EmptyMap(), StimulusTimeSeconds, values, UuidsOfUnit(items, c));
    var source: Table := EmptyMap();
    forall b ensures Names(ms, k, p, b) <==> b == a {
      UnitMutationsNameUnit(source, items, c, p, values, k, p, b);
      assert forall u :: PartialKeys(source.order, u) == [];
      if b == a { assert ItemNames(source, k, p, values, k, p, b); }
    }
    AppliedCell(t, ms, k, p, a);
  }

  lemma FirstScope(groups: JsMap<string, Group>, k: string)
    requires groups.Has(k)
    ensures var scoped := Scoped(groups, [k], StimulusTimeSeconds, true);
      scoped.order == [groups.at[k].unitId] && forall c :: scoped.Has(c) <==> c == groups.at[k].unitId
  {
    assert [k][..|[k]| - 1] == [];
    assert Scoped(groups, [], StimulusTimeSeconds, true) == EmptyMap();
  }

  /** The values collected in two units from two groups. */
  lemma TwoScopes(groups: JsMap<string, Group>, k: string, l: string)
    requires groups.Has(k) && groups.Has(l) && groups.at[k].unitId != groups.at[l].unitId
    requires |Values(groups.at[l], StimulusTimeSeconds)| <= 1
    ensures var scoped := Scoped(groups, [k, l], StimulusTimeSeconds, true);
      && scoped.order == [groups.at[k].unitId, groups.at[l].unitId] && scoped.Has(groups.at[l].unitId)
      && scoped.at[groups.at[l].unitId] == Values(groups.at[l], StimulusTimeSeconds)
  {
    assert [k, l][..|[k, l]| - 1] == [k];
    FirstScope(groups, k);
  }

  lemma LastUnitPhase(setup: Setup, groups: JsMap<string, Group>, scoped: JsMap<string, seq<Value>>, c: string, d: string)
    requires scoped == ScopedValues(setup, groups, StimulusTimeSeconds, true) && scoped.order == [c, d] && scoped.Has(d)
    ensures exists front :: AllMutations(setup, groups) == front + UnitMutations(setup.source, StimulusTimeSeconds, scoped.at[d], UuidsOfUnit(setup.items, d))
  {
    var p, last := StimulusTimeSeconds, UnitMutations(setup.source, StimulusTimeSeconds, scoped.at[d], UuidsOfUnit(setup.items, d));
    assert scoped.order[..1] == [c];
    var phase := UnitPhase(setup.source, setup.items, p, scoped, [c]);
    assert UnitPhase(setup.source, setup.items, p, scoped, scoped.order) == phase + last;
    var times, levels := ScopedValues(setup, groups, ItemTimeSeconds, false), ScopedValues(setup, groups, CompetenceLevel, false);
    var x := Keeps(setup.columns, SCALARS + TEXTS) + (if setup.withOccurrences then [] else [Mutation(Keep, BookletOccurrences, [])])
      + RowPhase(setup, groups, groups.order)
      + ItemPhase(setup.source, ItemTimeSeconds, times, times.order)
      + ItemPhase(setup.source, CompetenceLevel, levels, levels.order);
    assert AllMutations(setup, groups) == x + (phase + last);
    assert x + (phase + last) == (x + phase) + last;
  }

  /** The unit of the second group has the last word. */
  lemma LastGroupDecides(setup: Setup, groups: JsMap<string, Group>, k: string, l: string)
    requires groups.order == [k, l] && groups.Has(k) && groups.Has(l) && groups.at[k].unitId != groups.at[l].unitId
    requires |Values(groups.at[l], StimulusTimeSeconds)| <= 1 && StimulusTimeSeconds in setup.columns.at
    requires setup.source == EmptyMap() && groups.at[l].uuid in UuidsOfUnit(setup.items, groups.at[l].unitId)
    ensures CellOf(Applied(setup.source, AllMutations(setup, groups)), groups.at[l].uuid, StimulusTimeSeconds)
         == Outcome(SetOrClear(Values(groups.at[l], StimulusTimeSeconds)), None)
  {
    var scoped, d := ScopedValues(setup, groups, StimulusTimeSeconds, true), groups.at[l].unitId;
    TwoScopes(groups, k, l);
    LastUnitPhase(setup, groups, scoped, groups.at[k].unitId, d);
    var front :| AllMutations(setup, groups) == front + UnitMutations(setup.source, StimulusTimeSeconds, scoped.at[d], UuidsOfUnit(setup.items, d));
    AppliedInTurn(setup.source, front, UnitMutations(setup.source, StimulusTimeSeconds, scoped.at[d], UuidsOfUnit(setup.items, d)));
    LastUnitCell(Applied(setup.source, front), setup.items, d, scoped.at[d], groups.at[l].uuid);
  }

  lemma TwoLinesApart(v: Verdict, w: Verdict, x: Value)
    requires Simple(v, x) && Simple(w, x) && OneForms(v, w) && RowKeyOf(v) != RowKeyOf(w)
    ensures Gather(false, [v, w]).Ok?
    ensures var groups, k, l := Gather(false, [v, w]).value.groups, RowKeyOf(v), RowKeyOf(w);
      && groups.order == [k, l] && groups.Has(k) && groups.Has(l)
      && groups.at[k].unitId == v.item.unitId && groups.at[l].unitId == w.item.unitId && groups.at[l].uuid == w.item.uuid
      && Values(groups.at[l], StimulusTimeSeconds) == if StimulusTimeSeconds in w.content.value.values then [x] else []
  {
    TwoLinesGather(v, w, x);
  }

  /** The unit of the second line has the last word. */
  lemma LastLineDecides(setup: Setup, v: Verdict, w: Verdict, x: Value)
    requires Simple(v, x) && Simple(w, x) && OneForms(v, w) && RowKeyOf(v) != RowKeyOf(w) && v.item.unitId != w.item.unitId
    requires setup.columns == OneColumn(StimulusTimeSeconds) && setup.source == EmptyMap() && w.item in setup.items
    ensures Gather(false, [v, w]).Ok?
    ensures CellOf(After(setup, false, [v, w]), w.item.uuid, StimulusTimeSeconds)
         == if StimulusTimeSeconds in w.content.value.values then Some(x) else None
  {
    TwoLinesApart(v, w, x);
    UuidsOfUnitAre(setup.items, w.item.unitId, w.item.uuid);
    LastGroupDecides(setup, Gather(false, [v, w]).value.groups, RowKeyOf(v), RowKeyOf(w));
  }

  lemma TwoUnitLines(env: Env, items: seq<Item>, q: Row, r: Row, v: Verdict, w: Verdict, x: Value)
    requires |q| == |r| == 3
    requires VerdictOf(env, OneColumn(StimulusTimeSeconds), false, items, q) == v && VerdictOf(env, OneColumn(StimulusTimeSeconds), false, items, r) == w
    requires Simple(v, x) && Simple(w, x) && OneForms(v, w) && RowKeyOf(v) != RowKeyOf(w)
    requires v.item.uuid == w.item.uuid && v.item.unitId != w.item.unitId && v.item in items && w.item in items
    requires StimulusTimeSeconds in v.content.value.values && StimulusTimeSeconds !in w.content.value.values
    ensures OrderMatters(env, OneColumn(StimulusTimeSeconds), items, EmptyMap(), q, r)
  {
    var p, setup := StimulusTimeSeconds, Setup(env, OneColumn(StimulusTimeSeconds), false, items, EmptyMap());
    BothOrdersImport(env, p, items, EmptyMap(), q, r, v, w, x);
    LastLineDecides(setup, v, w, x);
    LastLineDecides(setup, w, v, x);
    DifferentCells(After(setup, false, [v, w]), After(setup, false, [w, v]), v.item.uuid, p);
  }

  lemma DifferentRows(u: string)
    ensures BuildItemRowKey(u, "1") != BuildItemRowKey(u, "2")
  {
    SelfApart(u);
    if BuildItemRowKey(u, "1") == BuildItemRowKey(u, "2") { KeyDetermines(u, "1", u, "2"); }
  }

  /** A text that stands for a time. */
  ghost predicate TimeText(env: Env, text: string) { Trimmed(text) && text != "" && Valid(env, StimulusTimeSeconds, text) }

  /** A uuid that stands for an item of two units: the unit that is named last has its way. */
  lemma TwoUnitsCollide(env: Env, items: seq<Item>, u: Item, v: Item, rawU: string, rawV: string, text: string) returns (q: Row, r: Row)
    requires NameOf(items, rawU, u) && NameOf(items, rawV, v) && TimeText(env, text)
    requires u.uuid == v.uuid && u.unitId != v.unitId
    ensures |q| == |r| == 3
    ensures OrderMatters(env, OneColumn(StimulusTimeSeconds), items, EmptyMap(), q, r)
  {
    var p, x := StimulusTimeSeconds, ValueOf(env, StimulusTimeSeconds, text);
    q, r := [rawU, "1", text], [rawV, "2", ""];
    LineReads(env, p, items, rawU, "1", text, u);
    LineReads(env, p, items, rawV, "2", "", v);
    FoundItem(items, rawU);
    FoundItem(items, rawV);
    DifferentRows(u.uuid);
    TwoUnitLines(env, items, q, r, Matched(u, "1", Ok(Content(CellValues(env, p, text), Unasked))), Matched(v, "2", Ok(Content(CellValues(env, p, ""), Unasked))), x);
  }

  // ------------------------------------------------------------------------ exactly when it matters

  /** If both imports go through, they leave the same behind. */
  ghost predicate SameOutcome(r: Result<Table, Conflict>, s: Result<Table, Conflict>) { r.Ok? && s.Ok? ==> r.value.at == s.value.at }

  ghost predicate SameFromRows(env: Env, columns: Columns, items: seq<Item>, source: Table, a: seq<Row>, b: seq<Row>) {
    SameOutcome(Import(env, columns, items, source, a), Import(env, columns, items, source, b))
  }

  ghost predicate SameFromLines(env: Env, columns: Columns, items: seq<Item>, source: Table, a: seq<string>, b: seq<string>) {
    SameOutcome(ImportLines(env, columns, items, source, a), ImportLines(env, columns, items, source, b))
  }

  ghost predicate RowOrderNeverMatters(env: Env, items: seq<Item>) {
    forall columns: Columns, source: Table, a: seq<Row>, b: seq<Row> :: source.Valid() && SameRows(a, b) ==> SameFromRows(env, columns, items, source, a, b)
  }

  ghost predicate LineOrderNeverMatters(env: Env, items: seq<Item>) {
    forall columns: Columns, source: Table, a: seq<string>, b: seq<string> ::
      source.Valid() && multiset(a) == multiset(b) ==> SameFromLines(env, columns, items, source, a, b)
  }

  /** Every item can be found by some name. */
  ghost predicate EachFound(items: seq<Item>) { forall item :: item in items ==> exists raw :: NameOf(items, raw, item) }

  lemma SwappedRowsDiffer(env: Env, columns: Columns, items: seq<Item>, source: Table, q: Row, r: Row)
    requires OrderMatters(env, columns, items, source, q, r)
    ensures source.Valid() && !SameFromRows(env, columns, items, source, [q, r], [r, q])
  {
  }

  lemma SwappedLines(x: string, y: string)
    ensures multiset([x, y]) == multiset([y, x])
  {
  }

  lemma OrderOfTwoRowsMatters(env: Env, columns: Columns, items: seq<Item>, source: Table, q: Row, r: Row)
    requires OrderMatters(env, columns, items, source, q, r)
    ensures !RowOrderNeverMatters(env, items)
  {
    assert SameRows([q, r], [r, q]);
    SwappedRowsDiffer(env, columns, items, source, q, r);
  }

  lemma PrintedRows(q: Row, r: Row)
    requires q != [] && r != []
    ensures RowsOf([PrintedLine(q), PrintedLine(r)]) == [q, r]
  {
    PrintedLineIsRead(q);
    PrintedLineIsRead(r);
  }

  lemma LinesOfRows(env: Env, columns: Columns, items: seq<Item>, source: Table, a: seq<string>, b: seq<string>)
    requires source.Valid() && multiset(a) == multiset(b)
    requires !SameFromRows(env, columns, items, source, RowsOf(a), RowsOf(b))
    ensures !LineOrderNeverMatters(env, items)
  {
    assert !SameFromLines(env, columns, items, source, a, b);
  }

  /** Where the order of two rows matters, so does the order of the lines that hold them. */
  lemma OrderOfTwoLinesMatters(env: Env, columns: Columns, items: seq<Item>, source: Table, q: Row, r: Row)
    requires OrderMatters(env, columns, items, source, q, r) && q != [] && r != []
    ensures !LineOrderNeverMatters(env, items)
  {
    var a, b := [PrintedLine(q), PrintedLine(r)], [PrintedLine(r), PrintedLine(q)];
    PrintedRows(q, r);
    PrintedRows(r, q);
    SwappedLines(PrintedLine(q), PrintedLine(r));
    SwappedRowsDiffer(env, columns, items, source, q, r);
    LinesOfRows(env, columns, items, source, a, b);
  }

  lemma OrderOfTwoMatters(env: Env, columns: Columns, items: seq<Item>, source: Table, q: Row, r: Row)
    requires OrderMatters(env, columns, items, source, q, r) && q != [] && r != []
    ensures !RowOrderNeverMatters(env, items) && !LineOrderNeverMatters(env, items)
  {
    OrderOfTwoRowsMatters(env, columns, items, source, q, r);
    OrderOfTwoLinesMatters(env, columns, items, source, q, r);
  }

  /** Two items of a catalogue that is not in order. */
  lemma BadPairMatters(env: Env, items: seq<Item>, text: string, u: Item, v: Item)
    requires EachFound(items) && TimeText(env, text) && u in items && v in items
    requires !(Apart(u.uuid, v.uuid) && (u.uuid == v.uuid ==> u.unitId == v.unitId))
    ensures !RowOrderNeverMatters(env, items) && !LineOrderNeverMatters(env, items)
  {
    var rawU :| NameOf(items, rawU, u);
    var rawV :| NameOf(items, rawV, v);
    if u.uuid == v.uuid {
      SelfApart(u.uuid);
      var q, r := TwoUnitsCollide(env, items, u, v, rawU, rawV, text);
      OrderOfTwoMatters(env, OneColumn(StimulusTimeSeconds), items, EmptyMap(), q, r);
    } else if Trim(u.uuid) == Trim(v.uuid) {
      var source, q, r := SameTrimCollides(env, items, u, v, rawU, rawV);
      OrderOfTwoMatters(env, OneColumn(ItemTimeSeconds), items, source, q, r);
    } else {
      var s :| Trimmed(s) && s != "" && (BuildItemRowKey(u.uuid, s) == Trim(v.uuid) || BuildItemRowKey(v.uuid, s) == Trim(u.uuid));
      var q, r;
      if BuildItemRowKey(u.uuid, s) == Trim(v.uuid) {
        q, r := RowKeyCollides(env, items, u, v, rawU, rawV, s);
      } else {
        q, r := RowKeyCollides(env, items, v, u, rawV, rawU, s);
      }
      OrderOfTwoMatters(env, OneColumn(ItemTimeSeconds), items, EmptyMap(), q, r);
    }
  }

  lemma RowOrderOfGoodItems(env: Env, items: seq<Item>)
    requires StrictOrder(env) && ItemsOk(items)
    ensures RowOrderNeverMatters(env, items)
  {
    forall columns: Columns, source: Table, a: seq<Row>, b: seq<Row> | source.Valid() && SameRows(a, b) ensures SameFromRows(env, columns, items, source, a, b) {
      if Import(env, columns, items, source, a).Ok? && Import(env, columns, items, source, b).Ok? {
        OrderOfRowsDoesNotMatter(env, columns, items, source, a, b);
      }
    }
  }

  lemma LineOrderOfGoodItems(env: Env, items: seq<Item>)
    requires StrictOrder(env) && ItemsOk(items)
    ensures LineOrderNeverMatters(env, items)
  {
    forall columns: Columns, source: Table, a: seq<string>, b: seq<string> | source.Valid() && multiset(a) == multiset(b)
      ensures SameFromLines(env, columns, items, source, a, b)
    {
      if ImportLines(env, columns, items, source, a).Ok? && ImportLines(env, columns, items, source, b).Ok? {
        OrderOfLinesDoesNotMatter(env, columns, items, source, a, b);
      }
    }
  }

  /** The order of lines matters somewhere in a catalogue that is not in order. */
  lemma BadItemsMatter(env: Env, items: seq<Item>, text: string)
    requires EachFound(items) && TimeText(env, text) && !ItemsOk(items)
    ensures !RowOrderNeverMatters(env, items) && !LineOrderNeverMatters(env, items)
  {
    var u, v := BadPair(items);
    BadPairMatters(env, items, text, u, v);
  }

  lemma BadPair(items: seq<Item>) returns (u: Item, v: Item)
    requires !ItemsOk(items)
    ensures u in items && v in items && !(Apart(u.uuid, v.uuid) && (u.uuid == v.uuid ==> u.unitId == v.unitId))
  {
    u, v :| u in items && v in items && !(Apart(u.uuid, v.uuid) && (u.uuid == v.uuid ==> u.unitId == v.unitId));
  }

  /** The order of the lines never matters, in no file and for no properties stored before, if and only
      if no uuid of the catalogue is, but for white space, another one or a row key of another one, and
      none stands for items of two units. */
  lemma OrderNeverMattersExactly(env: Env, items: seq<Item>, text: string)
    requires StrictOrder(env) && EachFound(items) && TimeText(env, text)
    ensures RowOrderNeverMatters(env, items) <==> ItemsOk(items)
    ensures LineOrderNeverMatters(env, items) <==> ItemsOk(items)
  {
    if ItemsOk(items) {
      RowOrderOfGoodItems(env, items);
      LineOrderOfGoodItems(env, items);
    } else {
      BadItemsMatter(env, items, text);
    }
  }

  /** A catalogue of two items, one of whose uuids is a row key of the other. */
  function TwoItems(): seq<Item> { [Item("a", "x", "u", "U"), Item("a::b", "y", "u", "U")] }

  lemma NamesOfTwo()
    ensures NameOf(TwoItems(), "x", Item("a", "x", "u", "U")) && NameOf(TwoItems(), "y", Item("a::b", "y", "u", "U"))
  {
    assert Reference("x") == "x" && Reference("y") == "y" && Reference("u") == "u" && Reference("U") == "u";
  }

  /** Two lines of this catalogue that import in both orders with different results. */
  lemma OrderCanMatter(env: Env)
    ensures OrderMatters(env, OneColumn(ItemTimeSeconds), TwoItems(), EmptyMap(), ["x", "b", ""], ["y", "", ""])
  {
    NamesOfTwo();
    TrimFixpoint("a");
    TrimFixpoint("b");
    TrimFixpoint("a::b");
    assert Encode("b") == "b" by { assert EncodeChar('b') == "b" && Encode("b"[1..]) == ""; }
    var q, r := RowKeyCollides(env, TwoItems(), TwoItems()[0], TwoItems()[1], "x", "y", "b");
  }
}
