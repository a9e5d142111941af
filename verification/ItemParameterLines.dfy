/** backend/src/items/item-parameter-import.pipeline.ts: what the lines of an import leave behind in
    the items and units that they name, and what they leave alone. */
module ItemParameterLines {
  import opened ItemParameterImport
  import opened ItemParameterPlan
  import opened ItemParameterOutcome
  import opened ItemParameterResults
  import opened ItemRowKey
  import opened JsMaps
  import opened Outcomes
  import opened Sorting
  import opened Text

  // ------------------------------------------------------------------ from lines to items and units

  /** What the import makes of the lines of a file. */
  function LinesOf(env: Env, columns: Columns, items: seq<Item>, rows: seq<Row>): seq<Verdict> {
    Verdicts(env, columns, WithOccurrences(columns, rows), items, rows)
  }

  /** An accepted line that names the item, or an item of the unit. */
  predicate LineIn(v: Verdict, unit: bool, c: string) {
    Accepted(v) && (if unit then v.item.unitId else v.item.uuid) == c
  }

  predicate LineGives(v: Verdict, unit: bool, c: string, p: Property, x: Value) {
    LineIn(v, unit, c) && p in v.content.value.values && v.content.value.values[p] == x
  }

  ghost predicate Mentioned(vs: seq<Verdict>, unit: bool, c: string) { exists v :: v in vs && LineIn(v, unit, c) }

  ghost predicate Given(vs: seq<Verdict>, unit: bool, c: string, p: Property, x: Value) { exists v :: v in vs && LineGives(v, unit, c, p, x) }

  /** The group of a line has the item of the line. */
  lemma GroupOfLine(single: bool, vs: seq<Verdict>, items: seq<Item>, v: Verdict)
    requires ItemsOk(items) && FromItems(vs, items) && Gather(single, vs).Ok? && v in vs && Accepted(v)
    ensures var groups := Gather(single, vs).value.groups;
      && groups.Has(RowKeyOf(v))
      && groups.at[RowKeyOf(v)].uuid == v.item.uuid && groups.at[RowKeyOf(v)].unitId == v.item.unitId && groups.at[RowKeyOf(v)].subId == v.subId
  {
    var key := RowKeyOf(v);
    assert OfRow(v, key);
    GroupKeys(single, vs, key);
    var line := LineOfGroup(single, vs, items, key);
    assert Apart(v.item.uuid, line.item.uuid);
    KeyDetermines(v.item.uuid, v.subId, line.item.uuid, line.subId);
  }

  lemma MentionedExactly(setup: Setup, single: bool, vs: seq<Verdict>, p: Property, unit: bool, c: string)
    requires ItemsOk(setup.items) && FromItems(vs, setup.items) && Gather(single, vs).Ok? && p in setup.columns.at
    ensures ScopedValues(setup, Gather(single, vs).value.groups, p, unit).Has(c) <==> Mentioned(vs, unit, c)
  {
    var groups := Gather(single, vs).value.groups;
    GroupKeys(single, vs, "");
    ScopedIs(setup, groups, p, unit, c, Null);
    if Mentioned(vs, unit, c) {
      var v :| v in vs && LineIn(v, unit, c);
      GroupOfLine(single, vs, setup.items, v);
      assert InScope(groups, RowKeyOf(v), unit, c);
    }
    if key :| InScope(groups, key, unit, c) {
      var v := LineOfGroup(single, vs, setup.items, key);
      assert LineIn(v, unit, c);
    }
  }

  lemma GivenIsCollected(setup: Setup, single: bool, vs: seq<Verdict>, p: Property, unit: bool, c: string, x: Value)
    requires ItemsOk(setup.items) && FromItems(vs, setup.items) && Gather(single, vs).Ok?
    requires GroupsAgree(Gather(single, vs).value.groups) && Given(vs, unit, c, p, x)
    ensures exists key :: Contributes(Gather(single, vs).value.groups, key, p, unit, c, x)
  {
    var v :| v in vs && LineGives(v, unit, c, p, x);
    GroupOfLine(single, vs, setup.items, v);
    ValueOfLine(single, vs, v, p, x);
    assert Contributes(Gather(single, vs).value.groups, RowKeyOf(v), p, unit, c, x);
  }

  lemma CollectedIsGiven(setup: Setup, single: bool, vs: seq<Verdict>, p: Property, unit: bool, c: string, x: Value, key: string)
    requires ItemsOk(setup.items) && FromItems(vs, setup.items) && Gather(single, vs).Ok?
    requires Contributes(Gather(single, vs).value.groups, key, p, unit, c, x)
    ensures Given(vs, unit, c, p, x)
  {
    GroupValues(single, vs, key, p, x);
    var v :| v in vs && Carries(v, key, p, x);
    GroupOfLine(single, vs, setup.items, v);
    assert LineGives(v, unit, c, p, x);
  }

  lemma GivenExactly(setup: Setup, single: bool, vs: seq<Verdict>, p: Property, unit: bool, c: string, x: Value)
    requires ItemsOk(setup.items) && FromItems(vs, setup.items) && Gather(single, vs).Ok? && p in setup.columns.at
    requires GroupsAgree(Gather(single, vs).value.groups) && Mentioned(vs, unit, c)
    ensures var scoped := ScopedValues(setup, Gather(single, vs).value.groups, p, unit);
      scoped.Has(c) && (x in scoped.at[c] <==> Given(vs, unit, c, p, x))
  {
    var groups := Gather(single, vs).value.groups;
    GroupKeys(single, vs, "");
    MentionedExactly(setup, single, vs, p, unit, c);
    ScopedIs(setup, groups, p, unit, c, x);
    if Given(vs, unit, c, p, x) { GivenIsCollected(setup, single, vs, p, unit, c, x); }
    if key :| Contributes(groups, key, p, unit, c, x) { CollectedIsGiven(setup, single, vs, p, unit, c, x, key); }
  }

  lemma OnlyValue(values: seq<Value>, x: Value)
    requires |values| <= 1
    ensures Outcome(SetOrClear(values), None) == Some(x) <==> x in values
  {
  }

  lemma OneScopedValue(setup: Setup, groups: JsMap<string, Group>, p: Property, unit: bool, c: string)
    requires NoConflict(setup, groups) && (if unit then p == StimulusTimeSeconds else p == ItemTimeSeconds || p == CompetenceLevel)
    requires ScopedValues(setup, groups, p, unit).Has(c)
    ensures |ScopedValues(setup, groups, p, unit).at[c]| <= 1
  {
    NoConflictInScope(setup, groups, p, unit);
  }

  /** Lines of the catalogue that gather into groups without conflicts. */
  ghost predicate Gathered(setup: Setup, single: bool, vs: seq<Verdict>) {
    && ItemsOk(setup.items) && FromItems(vs, setup.items) && setup.source.Valid() && Gather(single, vs).Ok?
    && GroupsOk(setup.items, Gather(single, vs).value.groups) && NoConflict(setup, Gather(single, vs).value.groups)
  }

  function After(setup: Setup, single: bool, vs: seq<Verdict>): Table
    requires Gather(single, vs).Ok?
  {
    Applied(setup.source, AllMutations(setup, Gather(single, vs).value.groups))
  }

  /** What an import that goes through is made of. */
  lemma ImportedLines(env: Env, columns: Columns, items: seq<Item>, source: Table, rows: seq<Row>)
    requires ItemsOk(items) && source.Valid() && Import(env, columns, items, source, rows).Ok?
    ensures var setup, vs := SetupOf(env, columns, items, source, rows), LinesOf(env, columns, items, rows);
      Gathered(setup, Single(columns), vs) && Import(env, columns, items, source, rows).value == After(setup, Single(columns), vs)
  {
    VerdictsFromItems(env, columns, WithOccurrences(columns, rows), items, rows);
    var groups := ImportedGroups(env, columns, items, source, rows);
  }

  lemma ItemValueGiven(setup: Setup, single: bool, vs: seq<Verdict>, p: Property, uuid: string, x: Value)
    requires Gathered(setup, single, vs) && OfWholeItems(p) && p in setup.columns.at && Mentioned(vs, false, uuid)
    ensures CellOf(After(setup, single, vs), uuid, p) == Some(x) <==> Given(vs, false, uuid, p, x)
  {
    var groups := Gather(single, vs).value.groups;
    GivenExactly(setup, single, vs, p, false, uuid, x);
    MentionedItemShowsItsValue(setup, groups, p, uuid);
    OneScopedValue(setup, groups, p, false, uuid);
    OnlyValue(ScopedValues(setup, groups, p, false).at[uuid], x);
  }

  lemma ListedItemRowHasNone(setup: Setup, single: bool, vs: seq<Verdict>, p: Property, uuid: string, k: string)
    requires Gathered(setup, single, vs) && OfWholeItems(p) && p in setup.columns.at && Mentioned(vs, false, uuid)
    requires k in PartialKeys(setup.source.order, uuid)
    ensures CellOf(After(setup, single, vs), k, p) == None
  {
    MentionedExactly(setup, single, vs, p, false, uuid);
    ListedRowOfItemHasNone(setup, Gather(single, vs).value.groups, uuid, p, k);
  }

  lemma MentionedIsListed(items: seq<Item>, vs: seq<Verdict>, uuid: string)
    requires FromItems(vs, items) && Mentioned(vs, false, uuid)
    ensures Listed(items, uuid)
  {
    var v :| v in vs && LineIn(v, false, uuid);
    assert v.item in items;
  }

  lemma UnlistedItemRowHasNone(setup: Setup, single: bool, vs: seq<Verdict>, p: Property, uuid: string, k: string)
    requires Gathered(setup, single, vs) && OfWholeItems(p) && Mentioned(vs, false, uuid)
    requires UuidOf(k) == Some(uuid) && k !in PartialKeys(setup.source.order, uuid)
    ensures CellOf(After(setup, single, vs), k, p) == None
  {
    MentionedIsListed(setup.items, vs, uuid);
    UnlistedRowHasNone(setup, Gather(single, vs).value.groups, uuid, p, k);
  }

  lemma ItemRowHasNone(setup: Setup, single: bool, vs: seq<Verdict>, p: Property, uuid: string, k: string)
    requires Gathered(setup, single, vs) && OfWholeItems(p) && p in setup.columns.at && Mentioned(vs, false, uuid)
    requires UuidOf(k) == Some(uuid)
    ensures CellOf(After(setup, single, vs), k, p) == None
  {
    if k in PartialKeys(setup.source.order, uuid) {
      ListedItemRowHasNone(setup, single, vs, p, uuid, k);
    } else {
      UnlistedItemRowHasNone(setup, single, vs, p, uuid, k);
    }
  }

  /** After an import of item times or competence levels, each item that an accepted line names
      stores exactly the value that its lines give, or none if they give none, and no partial row of
      the item keeps a value of its own. */
  lemma ImportedItemValue(env: Env, columns: Columns, items: seq<Item>, source: Table, rows: seq<Row>, p: Property, uuid: string, x: Value)
    requires ItemsOk(items) && source.Valid() && Import(env, columns, items, source, rows).Ok?
    requires OfWholeItems(p) && p in columns.at && Mentioned(LinesOf(env, columns, items, rows), false, uuid)
    ensures var next := Import(env, columns, items, source, rows).value;
      && (CellOf(next, uuid, p) == Some(x) <==> Given(LinesOf(env, columns, items, rows), false, uuid, p, x))
      && forall k :: UuidOf(k) == Some(uuid) ==> CellOf(next, k, p) == None
  {
    var setup, single, vs := SetupOf(env, columns, items, source, rows), Single(columns), LinesOf(env, columns, items, rows);
    ImportedLines(env, columns, items, source, rows);
    ItemValueGiven(setup, single, vs, p, uuid, x);
    forall k | UuidOf(k) == Some(uuid) ensures CellOf(After(setup, single, vs), k, p) == None {
      ItemRowHasNone(setup, single, vs, p, uuid, k);
    }
  }

  lemma UnitValueGiven(setup: Setup, single: bool, vs: seq<Verdict>, item: Item, x: Value)
    requires Gathered(setup, single, vs) && StimulusTimeSeconds in setup.columns.at && item in setup.items && Mentioned(vs, true, item.unitId)
    ensures CellOf(After(setup, single, vs), item.uuid, StimulusTimeSeconds) == Some(x) <==> Given(vs, true, item.unitId, StimulusTimeSeconds, x)
  {
    var groups, p := Gather(single, vs).value.groups, StimulusTimeSeconds;
    GivenExactly(setup, single, vs, p, true, item.unitId, x);
    ItemOfMentionedUnitShowsItsValue(setup, groups, item);
    OneScopedValue(setup, groups, p, true, item.unitId);
    OnlyValue(ScopedValues(setup, groups, p, true).at[item.unitId], x);
  }

  lemma UnitRowHasNone(setup: Setup, single: bool, vs: seq<Verdict>, item: Item, k: string)
    requires Gathered(setup, single, vs) && StimulusTimeSeconds in setup.columns.at && item in setup.items && Mentioned(vs, true, item.unitId)
    requires UuidOf(k) == Some(item.uuid)
    ensures CellOf(After(setup, single, vs), k, StimulusTimeSeconds) == None
  {
    MentionedExactly(setup, single, vs, StimulusTimeSeconds, true, item.unitId);
    RowOfUnitHasNone(setup, Gather(single, vs).value.groups, item, k);
  }

  /** The same of stimulus times for every item of a unit that an accepted line names. */
  lemma ImportedUnitValue(env: Env, columns: Columns, items: seq<Item>, source: Table, rows: seq<Row>, item: Item, x: Value)
    requires ItemsOk(items) && source.Valid() && Import(env, columns, items, source, rows).Ok?
    requires StimulusTimeSeconds in columns.at && item in items && Mentioned(LinesOf(env, columns, items, rows), true, item.unitId)
    ensures var next, p := Import(env, columns, items, source, rows).value, StimulusTimeSeconds;
      && (CellOf(next, item.uuid, p) == Some(x) <==> Given(LinesOf(env, columns, items, rows), true, item.unitId, p, x))
      && forall k :: UuidOf(k) == Some(item.uuid) ==> CellOf(next, k, p) == None
  {
    var setup, single, vs := SetupOf(env, columns, items, source, rows), Single(columns), LinesOf(env, columns, items, rows);
    ImportedLines(env, columns, items, source, rows);
    UnitValueGiven(setup, single, vs, item, x);
    forall k | UuidOf(k) == Some(item.uuid) ensures CellOf(After(setup, single, vs), k, StimulusTimeSeconds) == None {
      UnitRowHasNone(setup, single, vs, item, k);
    }
  }

  // ---------------------------------------------------------------------- what is not mentioned

  lemma NamedItemIsMentioned(setup: Setup, single: bool, vs: seq<Verdict>, uuid: string, k: string, p: Property, a: Action)
    requires ItemsOk(setup.items) && FromItems(vs, setup.items) && Gather(single, vs).Ok?
    requires Listed(setup.items, uuid) && Touches(k, uuid) && p != StimulusTimeSeconds
    requires PlanNames(setup, Gather(single, vs).value.groups, k, p, a)
    ensures Mentioned(vs, false, uuid)
  {
    var groups := Gather(single, vs).value.groups;
    GatheredGroupsOk(single, vs, setup.items);
    OwnProperties(setup, groups, k, p, a);
    if RowPhaseProperty(p) {
      var key :| groups.Has(key) && GroupNames(setup, key, groups.at[key], k, p, a);
      GroupListed(setup.items, groups, key);
      NamedTouches(setup, key, groups.at[key], k, p, a);
      ListedApart(setup.items, uuid, groups.at[key].uuid);
      TouchesOne(k, uuid, groups.at[key].uuid);
      var v := LineOfGroup(single, vs, setup.items, key);
      assert LineIn(v, false, uuid);
    } else {
      var s := ScopedValues(setup, groups, p, false);
      var u :| s.Has(u) && ItemNames(setup.source, u, p, s.at[u], k, p, a);
      ScopeIsListed(setup, groups, p, u);
      PartialKeysOf(setup.source.order, u, k);
      ListedApart(setup.items, uuid, u);
      TouchesOne(k, uuid, u);
      MentionedExactly(setup, single, vs, p, false, uuid);
    }
  }

  lemma NamedUnitIsMentioned(setup: Setup, single: bool, vs: seq<Verdict>, item: Item, k: string, a: Action)
    requires ItemsOk(setup.items) && FromItems(vs, setup.items) && Gather(single, vs).Ok?
    requires item in setup.items && Touches(k, item.uuid)
    requires PlanNames(setup, Gather(single, vs).value.groups, k, StimulusTimeSeconds, a)
    ensures Mentioned(vs, true, item.unitId)
  {
    var groups, p := Gather(single, vs).value.groups, StimulusTimeSeconds;
    OwnProperties(setup, groups, k, p, a);
    var s := ScopedValues(setup, groups, p, true);
    var c :| s.Has(c) && UnitNames(setup.source, setup.items, c, p, s.at[c], k, p, a);
    var u :| u in UuidsOfUnit(setup.items, c) && ItemNames(setup.source, u, p, s.at[c], k, p, a);
    UuidsOfUnitAre(setup.items, c, u);
    PartialKeysOf(setup.source.order, u, k);
    ListedApart(setup.items, item.uuid, u);
    TouchesOne(k, item.uuid, u);
    MentionedExactly(setup, single, vs, p, true, c);
  }

  /** An import changes no cell of an item that no accepted line names, but for the stimulus time,
      which it leaves alone for every item of a unit that no accepted line names. */
  lemma UnmentionedItemsStay(env: Env, columns: Columns, items: seq<Item>, source: Table, rows: seq<Row>, item: Item, k: string, p: Property)
    requires ItemsOk(items) && Import(env, columns, items, source, rows).Ok? && item in items && Touches(k, item.uuid)
    requires !Mentioned(LinesOf(env, columns, items, rows), p == StimulusTimeSeconds, if p == StimulusTimeSeconds then item.unitId else item.uuid)
    ensures CellOf(Import(env, columns, items, source, rows).value, k, p) == CellOf(source, k, p)
  {
    var setup, vs := SetupOf(env, columns, items, source, rows), LinesOf(env, columns, items, rows);
    var groups := ImportedGroups(env, columns, items, source, rows);
    VerdictsFromItems(env, columns, setup.withOccurrences, items, rows);
    assert Listed(items, item.uuid);
    forall a ensures !PlanNames(setup, groups, k, p, a) {
      if PlanNames(setup, groups, k, p, a) {
        if p == StimulusTimeSeconds {
          NamedUnitIsMentioned(setup, Single(columns), vs, item, k, a);
        } else {
          NamedItemIsMentioned(setup, Single(columns), vs, item.uuid, k, p, a);
        }
      }
    }
    UnnamedCellsStay(setup, groups, k, p);
  }

  // ------------------------------------------------------------------------------ occurrences

  ghost predicate InBooklet(os: seq<Occurrence>, booklet: string) {
    exists i :: 0 <= i < |os| && os[i].booklet == booklet
  }

  /** What a row has after an import that names `named` for it, if `stored` was known of it before: the
      positions that are named, and of a booklet that is named without one the stored ones, or just
      the booklet if none was stored. Nothing else of what was stored stays. */
  ghost predicate Placed(named: Occurrence -> bool, stored: seq<Occurrence>, o: Occurrence) {
    || (named(o) && (o.position.Some? || !InBooklet(stored, o.booklet)))
    || (o in stored && named(Occurrence(o.booklet, None)))
  }

  ghost function Among(os: seq<Occurrence>): Occurrence -> bool { (o: Occurrence) => o in os }

  lemma {:induction false} SameBookletExactly(existing: seq<Occurrence>, booklet: string, o: Occurrence)
    ensures o in SameBooklet(existing, booklet) <==> o in existing && o.booklet == booklet
    ensures SameBooklet(existing, booklet) != [] <==> InBooklet(existing, booklet)
  {
    if existing != [] {
      var rest, last := existing[..|existing| - 1], existing[|existing| - 1];
      SameBookletExactly(rest, booklet, o);
      assert existing == rest + [last];
      if InBooklet(rest, booklet) {
        var i :| 0 <= i < |rest| && rest[i].booklet == booklet;
        assert existing[i].booklet == booklet;
      }
    }
  }

  lemma {:induction false} KnownPositionsExactly(imported: seq<Occurrence>, existing: seq<Occurrence>, o: Occurrence)
    ensures o in WithKnownPositions(imported, existing) <==> Placed(Among(imported), existing, o)
  {
    if imported != [] {
      var rest, last := imported[..|imported| - 1], imported[|imported| - 1];
      KnownPositionsExactly(rest, existing, o);
      SameBookletExactly(existing, last.booklet, o);
      assert imported == rest + [last];
      assert Among(imported)(o) <==> Among(rest)(o) || o == last;
      assert Among(imported)(Occurrence(o.booklet, None)) <==> Among(rest)(Occurrence(o.booklet, None)) || Occurrence(o.booklet, None) == last;
    }
  }

  lemma SortKeepsBooklets(os: seq<Occurrence>, le: (Occurrence, Occurrence) -> bool, booklet: string)
    ensures InBooklet(Sort(os, le), booklet) <==> InBooklet(os, booklet)
  {
    if InBooklet(os, booklet) {
      var i :| 0 <= i < |os| && os[i].booklet == booklet;
      SortKeepsMembers(os, le, os[i]);
      var j :| 0 <= j < |Sort(os, le)| && Sort(os, le)[j] == os[i];
    }
    if InBooklet(Sort(os, le), booklet) {
      var i :| 0 <= i < |Sort(os, le)| && Sort(os, le)[i].booklet == booklet;
      SortKeepsMembers(os, le, Sort(os, le)[i]);
      var j :| 0 <= j < |os| && os[j] == Sort(os, le)[i];
    }
  }

  lemma ResolvedExactly(env: Env, source: Table, target: string, g: Group, o: Occurrence)
    ensures var v := Resolved(env, source, target, g);
      v.Occs? && (o in v.occurrences <==> Placed(Among(g.occurrences), env.occurrencesIn(Known(source, target, g.uuid)), o))
  {
    var le, stored := OccurrenceLe(env), env.occurrencesIn(Known(source, target, g.uuid));
    var imported, existing := Sort(g.occurrences, le), Sort(stored, le);
    KnownPositionsExactly(imported, existing, o);
    SortKeepsMembers(WithKnownPositions(imported, existing), le, o);
    SortKeepsMembers(g.occurrences, le, o);
    SortKeepsMembers(g.occurrences, le, Occurrence(o.booklet, None));
    SortKeepsMembers(stored, le, o);
    SortKeepsBooklets(stored, le, o.booklet);
  }

  /** What is known of a row is what it showed, by itself or by its item; an entry of its own that
      is null hides that of the item from the Explorer, but not from an import. */
  lemma KnownIsShown(source: Table, uuid: string, k: string)
    requires k == uuid || UuidOf(k) == Some(uuid)
    ensures var p := BookletOccurrences;
      Known(source, k, uuid) ==
        match Get(Shown(source, uuid, [], if CellOf(source, k, p) == Some(Null) then uuid else k), p) { case None => Null case Some(v) => v }
  {
    assert [uuid] + [] == [uuid] && [uuid][1..] == [];
    assert Resolve(source, []) == map[];
    assert Resolve(source, [uuid]) == PropsOf(source, uuid);
  }

  /** The item has this row, and the row shows exactly these occurrences. */
  ghost predicate ShowsPlaces(t: Table, uuid: string, others: seq<string>, k: string, places: Occurrence -> bool) {
    && k in ExplorerRows(t, uuid)
    && var shown := Shown(t, uuid, others, k);
       BookletOccurrences in shown && shown[BookletOccurrences].Occs? &&
       forall o :: o in shown[BookletOccurrences].occurrences <==> places(o)
  }

  /** The occurrences that lines name for a row key. */
  ghost function NamedBy(vs: seq<Verdict>, key: string): Occurrence -> bool { (o: Occurrence) => HasPlace(vs, key, o) }

  ghost function PlacesAfter(env: Env, source: Table, vs: seq<Verdict>, v: Verdict, k: string): Occurrence -> bool
    requires v.Matched?
  {
    (o: Occurrence) => Placed(NamedBy(vs, RowKeyOf(v)), env.occurrencesIn(Known(source, k, v.item.uuid)), o)
  }

  lemma PlacesOfGroup(setup: Setup, single: bool, vs: seq<Verdict>, v: Verdict, k: string, o: Occurrence)
    requires ItemsOk(setup.items) && FromItems(vs, setup.items) && Gather(single, vs).Ok? && v in vs && Accepted(v)
    ensures Gather(single, vs).value.groups.Has(RowKeyOf(v))
    ensures var r := Resolved(setup.env, setup.source, k, Gather(single, vs).value.groups.at[RowKeyOf(v)]);
      r.Occs? && (o in r.occurrences <==> PlacesAfter(setup.env, setup.source, vs, v, k)(o))
  {
    var key := RowKeyOf(v);
    GroupOfLine(single, vs, setup.items, v);
    GroupPlaces(single, vs, key, o);
    GroupPlaces(single, vs, key, Occurrence(o.booklet, None));
    ResolvedExactly(setup.env, setup.source, k, Gather(single, vs).value.groups.at[key], o);
  }

  lemma PlacesOfFoundLine(setup: Setup, single: bool, vs: seq<Verdict>, v: Verdict, k: string, others: seq<string>)
    requires ItemsOk(setup.items) && FromItems(vs, setup.items) && setup.source.Valid() && Gather(single, vs).Ok? && setup.withOccurrences
    requires v in vs && Accepted(v) && k in RowsNamed(setup.source, v.item.uuid, v.subId) && Findable(v.item.uuid, v.subId)
    ensures ShowsPlaces(Applied(setup.source, AllMutations(setup, Gather(single, vs).value.groups)), v.item.uuid, others, k,
                        PlacesAfter(setup.env, setup.source, vs, v, k))
  {
    var groups, key := Gather(single, vs).value.groups, RowKeyOf(v);
    GatheredGroupsOk(single, vs, setup.items);
    GroupOfLine(single, vs, setup.items, v);
    var r := Resolved(setup.env, setup.source, k, groups.at[key]);
    FoundCellsAreShown(setup, groups, key, k, BookletOccurrences, r, others);
    forall o ensures r.Occs? && (o in r.occurrences <==> PlacesAfter(setup.env, setup.source, vs, v, k)(o)) {
      PlacesOfGroup(setup, single, vs, v, k, o);
    }
  }

  /** A line whose row the Explorer does not find leaves what is shown as it was. */
  lemma PlaceOfOtherLine(setup: Setup, single: bool, vs: seq<Verdict>, v: Verdict, k: string, others: seq<string>)
    requires ItemsOk(setup.items) && FromItems(vs, setup.items) && Gather(single, vs).Ok?
    requires v in vs && Accepted(v) && k in RowsNamed(setup.source, v.item.uuid, v.subId) && !Findable(v.item.uuid, v.subId)
    ensures var next := Applied(setup.source, AllMutations(setup, Gather(single, vs).value.groups));
      if v.subId != "" then k !in ExplorerRows(next, v.item.uuid)
      else Get(Shown(next, v.item.uuid, others, k), BookletOccurrences) == Untouched(setup.source, next, v.item.uuid, others, BookletOccurrences)
  {
    var groups := Gather(single, vs).value.groups;
    GatheredGroupsOk(single, vs, setup.items);
    GroupOfLine(single, vs, setup.items, v);
    if v.subId != "" {
      RowNeverListed(Applied(setup.source, AllMutations(setup, groups)), v.item.uuid, v.subId);
    } else {
      UntrimmedShowsOld(setup, groups, RowKeyOf(v), BookletOccurrences, others, k);
    }
  }

  /** After an import with booklets, each row that a line is written to and that the Explorer finds
      shows exactly the positions that its lines name, those stored before of the booklets that a line
      names without a position, and such a booklet by itself if none was stored. A row that is not
      found is not listed, or shows what it would show without the line. */
  lemma ImportedPlacesAreShown(env: Env, columns: Columns, items: seq<Item>, source: Table, rows: seq<Row>, i: nat, k: string, others: seq<string>)
    requires ItemsOk(items) && source.Valid() && Import(env, columns, items, source, rows).Ok? && WithOccurrences(columns, rows) && i < |rows|
    requires var v := LinesOf(env, columns, items, rows)[i]; Accepted(v) && k in RowsNamed(source, v.item.uuid, v.subId)
    ensures var next, vs := Import(env, columns, items, source, rows).value, LinesOf(env, columns, items, rows);
      var v := vs[i];
      if Findable(v.item.uuid, v.subId) then ShowsPlaces(next, v.item.uuid, others, k, PlacesAfter(env, source, vs, v, k))
      else if v.subId != "" then k !in ExplorerRows(next, v.item.uuid)
      else Get(Shown(next, v.item.uuid, others, k), BookletOccurrences) == Untouched(source, next, v.item.uuid, others, BookletOccurrences)
  {
    var setup, vs := SetupOf(env, columns, items, source, rows), LinesOf(env, columns, items, rows);
    ImportedLines(env, columns, items, source, rows);
    assert vs[i] in vs;
    if Findable(vs[i].item.uuid, vs[i].subId) {
      PlacesOfFoundLine(setup, Single(columns), vs, vs[i], k, others);
    } else {
      PlaceOfOtherLine(setup, Single(columns), vs, vs[i], k, others);
    }
  }
}
