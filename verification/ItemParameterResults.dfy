/** backend/src/items/item-parameter-import.pipeline.ts and item-list.parser.ts: the import from the
    lines on, and the laws of its result: it does not depend on the order of the lines, what was
    imported is what the rows show, and times belong to items as a whole. */
module ItemParameterResults {
  import opened ItemParameterImport
  import opened ItemParameterPlan
  import opened ItemParameterOutcome
  import opened ItemRowKey
  import opened JsMaps
  import opened Outcomes
  import opened Sorting
  import opened Text

  // ------------------------------------------------------------------------- the groups

  ghost predicate FromItems(vs: seq<Verdict>, items: seq<Item>) {
    forall v :: v in vs && v.Matched? ==> v.item in items && Trimmed(v.subId)
  }

  lemma LineOfGroup(single: bool, vs: seq<Verdict>, items: seq<Item>, k: string) returns (v: Verdict)
    requires ItemsOk(items) && FromItems(vs, items) && Gather(single, vs).Ok? && Gather(single, vs).value.groups.Has(k)
    ensures var g := Gather(single, vs).value.groups.at[k];
      && v in vs && OfRow(v, k) && v.item in items
      && g.uuid == v.item.uuid && g.unitId == v.item.unitId && g.subId == v.subId && GroupOk(items, k, g)
  {
    v := GroupLine(single, vs, k);
  }

  lemma OneFormEach(single: bool, vs: seq<Verdict>, items: seq<Item>, k: string, l: string)
    requires ItemsOk(items) && FromItems(vs, items) && Gather(single, vs).Ok?
    requires var groups := Gather(single, vs).value.groups;
      groups.Has(k) && groups.Has(l) && groups.at[k].uuid == groups.at[l].uuid
    ensures var groups := Gather(single, vs).value.groups;
      groups.at[k].subId == "" <==> groups.at[l].subId == ""
  {
    var v := LineOfGroup(single, vs, items, k);
    var w := LineOfGroup(single, vs, items, l);
    OneForm(single, vs, v);
    OneForm(single, vs, w);
  }

  lemma GatheredGroupsOk(single: bool, vs: seq<Verdict>, items: seq<Item>)
    requires ItemsOk(items) && FromItems(vs, items) && Gather(single, vs).Ok?
    ensures GroupsOk(items, Gather(single, vs).value.groups)
  {
    var groups := Gather(single, vs).value.groups;
    GroupKeys(single, vs, "");
    forall k | groups.Has(k) ensures GroupOk(items, k, groups.at[k]) {
      var v := LineOfGroup(single, vs, items, k);
    }
    forall k, l | groups.Has(k) && groups.Has(l) && groups.at[k].uuid == groups.at[l].uuid
      ensures groups.at[k].subId == "" <==> groups.at[l].subId == ""
    {
      OneFormEach(single, vs, items, k, l);
    }
  }

  // ------------------------------------------------------- the same lines in another order

  ghost predicate SameGroup(env: Env, g: Group, h: Group) {
    && g.uuid == h.uuid && g.unitId == h.unitId && g.subId == h.subId
    && (forall p :: Values(g, p) == Values(h, p))
    && Sort(g.occurrences, OccurrenceLe(env)) == Sort(h.occurrences, OccurrenceLe(env))
  }

  lemma AtMostOne<T>(s: seq<T>, t: seq<T>)
    requires |s| <= 1 && |t| <= 1 && forall x :: x in s <==> x in t
    ensures s == t
  {
    if s != [] { assert s[0] in t; }
    if t != [] { assert t[0] in s; }
  }

  lemma SameValues(single: bool, a: seq<Verdict>, b: seq<Verdict>, k: string, p: Property)
    requires SameLines(a, b) && Gather(single, a).Ok? && Gather(single, b).Ok?
    requires var ga, gb := Gather(single, a).value.groups, Gather(single, b).value.groups;
      ga.Has(k) && gb.Has(k) && GroupAgrees(ga.at[k]) && GroupAgrees(gb.at[k])
    ensures Values(Gather(single, a).value.groups.at[k], p) == Values(Gather(single, b).value.groups.at[k], p)
  {
    var g, h := Gather(single, a).value.groups.at[k], Gather(single, b).value.groups.at[k];
    forall x ensures x in Values(g, p) <==> x in Values(h, p) {
      GroupValues(single, a, k, p, x);
      GroupValues(single, b, k, p, x);
    }
    AtMostOne(Values(g, p), Values(h, p));
  }

  lemma SamePlaces(env: Env, single: bool, a: seq<Verdict>, b: seq<Verdict>, k: string)
    requires StrictOrder(env) && SameLines(a, b) && Gather(single, a).Ok? && Gather(single, b).Ok?
    requires Gather(single, a).value.groups.Has(k) && Gather(single, b).value.groups.Has(k)
    ensures Sort(Gather(single, a).value.groups.at[k].occurrences, OccurrenceLe(env))
         == Sort(Gather(single, b).value.groups.at[k].occurrences, OccurrenceLe(env))
  {
    var g, h := Gather(single, a).value.groups.at[k], Gather(single, b).value.groups.at[k];
    GroupPlaces(single, a, k, Occurrence("", None));
    GroupPlaces(single, b, k, Occurrence("", None));
    forall o ensures o in g.occurrences <==> o in h.occurrences {
      GroupPlaces(single, a, k, o);
      GroupPlaces(single, b, k, o);
    }
    SameMembers(g.occurrences, h.occurrences);
    OccurrencesAreOrdered(env);
    SortIgnoresOrder(g.occurrences, h.occurrences, OccurrenceLe(env));
  }

  lemma SameIdentity(single: bool, a: seq<Verdict>, b: seq<Verdict>, items: seq<Item>, k: string)
    requires ItemsOk(items) && FromItems(a, items) && FromItems(b, items) && Gather(single, a).Ok? && Gather(single, b).Ok?
    requires Gather(single, a).value.groups.Has(k) && Gather(single, b).value.groups.Has(k)
    ensures var g, h := Gather(single, a).value.groups.at[k], Gather(single, b).value.groups.at[k];
      g.uuid == h.uuid && g.unitId == h.unitId && g.subId == h.subId
  {
    var v := LineOfGroup(single, a, items, k);
    var w := LineOfGroup(single, b, items, k);
    assert Apart(v.item.uuid, w.item.uuid);
    KeyDetermines(v.item.uuid, v.subId, w.item.uuid, w.subId);
  }

  ghost predicate SameGroups(env: Env, a: JsMap<string, Group>, b: JsMap<string, Group>) {
    forall k :: (a.Has(k) <==> b.Has(k)) && (a.Has(k) ==> SameGroup(env, a.at[k], b.at[k]))
  }

  lemma OrderOfLinesKeepsGroups(env: Env, single: bool, a: seq<Verdict>, b: seq<Verdict>, items: seq<Item>)
    requires StrictOrder(env) && ItemsOk(items) && FromItems(a, items) && FromItems(b, items) && SameLines(a, b)
    requires Gather(single, a).Ok? && Gather(single, b).Ok?
    requires GroupsAgree(Gather(single, a).value.groups) && GroupsAgree(Gather(single, b).value.groups)
    ensures SameGroups(env, Gather(single, a).value.groups, Gather(single, b).value.groups)
  {
    var ga, gb := Gather(single, a).value.groups, Gather(single, b).value.groups;
    forall k ensures (ga.Has(k) <==> gb.Has(k)) && (ga.Has(k) ==> SameGroup(env, ga.at[k], gb.at[k])) {
      GroupKeys(single, a, k);
      GroupKeys(single, b, k);
      if ga.Has(k) && gb.Has(k) {
        SameIdentity(single, a, b, items, k);
        SamePlaces(env, single, a, b, k);
        forall p ensures Values(ga.at[k], p) == Values(gb.at[k], p) { SameValues(single, a, b, k, p); }
      }
    }
  }

  lemma SameGroupNames(setup: Setup, key: string, g: Group, h: Group, k: string, p: Property, a: Action)
    requires SameGroup(setup.env, g, h)
    ensures GroupNames(setup, key, g, k, p, a) <==> GroupNames(setup, key, h, k, p, a)
  {
  }

  lemma SameContributions(env: Env, a: JsMap<string, Group>, b: JsMap<string, Group>, p: Property, unit: bool, c: string, x: Value, key: string)
    requires SameGroups(env, a, b)
    ensures InScope(a, key, unit, c) <==> InScope(b, key, unit, c)
    ensures Contributes(a, key, p, unit, c, x) <==> Contributes(b, key, p, unit, c, x)
  {
  }

  lemma SameScopedValue(setup: Setup, a: JsMap<string, Group>, b: JsMap<string, Group>, p: Property, unit: bool, c: string, x: Value)
    requires SameGroups(setup.env, a, b) && a.Valid() && b.Valid() && p in setup.columns.at
    ensures var s, t := ScopedValues(setup, a, p, unit), ScopedValues(setup, b, p, unit);
      (s.Has(c) <==> t.Has(c)) && (s.Has(c) ==> (x in s.at[c] <==> x in t.at[c]))
  {
    forall key ensures (InScope(a, key, unit, c) <==> InScope(b, key, unit, c)) && (Contributes(a, key, p, unit, c, x) <==> Contributes(b, key, p, unit, c, x)) {
      SameContributions(setup.env, a, b, p, unit, c, x, key);
    }
    ScopedIs(setup, a, p, unit, c, x);
    ScopedIs(setup, b, p, unit, c, x);
  }

  lemma SameScope(setup: Setup, a: JsMap<string, Group>, b: JsMap<string, Group>, p: Property, unit: bool, c: string)
    requires SameGroups(setup.env, a, b) && a.Valid() && b.Valid()
    requires ScopesAgree(ScopedValues(setup, a, p, unit)) && ScopesAgree(ScopedValues(setup, b, p, unit))
    ensures var s, t := ScopedValues(setup, a, p, unit), ScopedValues(setup, b, p, unit);
      (s.Has(c) <==> t.Has(c)) && (s.Has(c) ==> s.at[c] == t.at[c])
  {
    if p in setup.columns.at {
      var s, t := ScopedValues(setup, a, p, unit), ScopedValues(setup, b, p, unit);
      SameScopedValue(setup, a, b, p, unit, c, Null);
      if s.Has(c) {
        forall x ensures x in s.at[c] <==> x in t.at[c] { SameScopedValue(setup, a, b, p, unit, c, x); }
        AtMostOne(s.at[c], t.at[c]);
      }
    }
  }

  ghost predicate NoConflict(setup: Setup, groups: JsMap<string, Group>) { Conflicts(setup, groups) == None }

  /** Without conflict the values of a scope agree. */
  lemma NoConflictInScope(setup: Setup, groups: JsMap<string, Group>, p: Property, unit: bool)
    requires NoConflict(setup, groups) && (if unit then p == StimulusTimeSeconds else p == ItemTimeSeconds || p == CompetenceLevel)
    ensures ScopesAgree(ScopedValues(setup, groups, p, unit))
  {
  }

  lemma SameScopeNames(setup: Setup, a: JsMap<string, Group>, b: JsMap<string, Group>, k: string, p: Property, act: Action)
    requires SameGroups(setup.env, a, b) && a.Valid() && b.Valid() && NoConflict(setup, a) && NoConflict(setup, b)
    requires p == ItemTimeSeconds || p == CompetenceLevel
    requires ItemsName(setup.source, p, ScopedValues(setup, a, p, false), k, p, act)
    ensures ItemsName(setup.source, p, ScopedValues(setup, b, p, false), k, p, act)
  {
    var s := ScopedValues(setup, a, p, false);
    var u :| s.Has(u) && ItemNames(setup.source, u, p, s.at[u], k, p, act);
    NoConflictInScope(setup, a, p, false);
    NoConflictInScope(setup, b, p, false);
    SameScope(setup, a, b, p, false, u);
  }

  lemma SameUnitNames(setup: Setup, a: JsMap<string, Group>, b: JsMap<string, Group>, k: string, p: Property, act: Action)
    requires SameGroups(setup.env, a, b) && a.Valid() && b.Valid() && NoConflict(setup, a) && NoConflict(setup, b)
    requires p == StimulusTimeSeconds && UnitsName(setup, p, ScopedValues(setup, a, p, true), k, p, act)
    ensures UnitsName(setup, p, ScopedValues(setup, b, p, true), k, p, act)
  {
    var s := ScopedValues(setup, a, p, true);
    var c :| s.Has(c) && UnitNames(setup.source, setup.items, c, p, s.at[c], k, p, act);
    NoConflictInScope(setup, a, p, true);
    NoConflictInScope(setup, b, p, true);
    SameScope(setup, a, b, p, true, c);
  }

  /** The same groups make plans that name the same cells with the same actions. */
  lemma SamePlans(setup: Setup, a: JsMap<string, Group>, b: JsMap<string, Group>, k: string, p: Property, act: Action)
    requires SameGroups(setup.env, a, b) && a.Valid() && b.Valid() && NoConflict(setup, a) && NoConflict(setup, b)
    requires PlanNames(setup, a, k, p, act)
    ensures PlanNames(setup, b, k, p, act)
  {
    OwnProperties(setup, a, k, p, act);
    if RowPhaseProperty(p) {
      var key :| a.Has(key) && GroupNames(setup, key, a.at[key], k, p, act);
      assert b.Has(key) && SameGroup(setup.env, a.at[key], b.at[key]);
      SameGroupNames(setup, key, a.at[key], b.at[key], k, p, act);
    } else if p == StimulusTimeSeconds {
      SameUnitNames(setup, a, b, k, p, act);
    } else {
      SameScopeNames(setup, a, b, k, p, act);
    }
  }

  lemma SameGroupsSymmetric(env: Env, a: JsMap<string, Group>, b: JsMap<string, Group>)
    requires SameGroups(env, a, b)
    ensures SameGroups(env, b, a)
  {
    forall k ensures (b.Has(k) <==> a.Has(k)) && (b.Has(k) ==> SameGroup(env, b.at[k], a.at[k])) {
      assert (a.Has(k) <==> b.Has(k)) && (a.Has(k) ==> SameGroup(env, a.at[k], b.at[k]));
    }
  }

  lemma SameCells(setup: Setup, a: JsMap<string, Group>, b: JsMap<string, Group>, k: string, p: Property)
    requires ItemsOk(setup.items) && GroupsOk(setup.items, a) && GroupsOk(setup.items, b)
    requires SameGroups(setup.env, a, b) && NoConflict(setup, a) && NoConflict(setup, b)
    ensures CellOf(Applied(setup.source, AllMutations(setup, a)), k, p) == CellOf(Applied(setup.source, AllMutations(setup, b)), k, p)
  {
    SameGroupsSymmetric(setup.env, a, b);
    if act :| PlanNames(setup, a, k, p, act) {
      SamePlans(setup, a, b, k, p, act);
      CellAfter(setup, a, k, p, act);
      CellAfter(setup, b, k, p, act);
    } else {
      forall act ensures !PlanNames(setup, b, k, p, act) {
        if PlanNames(setup, b, k, p, act) { SamePlans(setup, b, a, k, p, act); }
      }
      UnnamedCellsStay(setup, a, k, p);
      UnnamedCellsStay(setup, b, k, p);
    }
  }

  lemma SetIsNamed(setup: Setup, a: JsMap<string, Group>, k: string)
    requires a.Valid()
    ensures Applied(setup.source, AllMutations(setup, a)).Has(k) <==>
      setup.source.Has(k) || exists p, v :: PlanNames(setup, a, k, p, Set(v))
  {
    var ms := AllMutations(setup, a);
    AppliedHas(setup.source, ms, k);
    if m :| m in ms && m.action.Set? && k in m.targets {
      assert Says(m, k, m.property, Set(m.action.value));
      AllMutationsName(setup, a, k, m.property, Set(m.action.value));
    }
    if p, v :| PlanNames(setup, a, k, p, Set(v)) {
      AllMutationsName(setup, a, k, p, Set(v));
      var m :| m in ms && Says(m, k, p, Set(v));
    }
  }

  lemma SameKeys(setup: Setup, a: JsMap<string, Group>, b: JsMap<string, Group>, k: string)
    requires SameGroups(setup.env, a, b) && a.Valid() && b.Valid() && NoConflict(setup, a) && NoConflict(setup, b)
    requires Applied(setup.source, AllMutations(setup, a)).Has(k)
    ensures Applied(setup.source, AllMutations(setup, b)).Has(k)
  {
    SetIsNamed(setup, a, k);
    SetIsNamed(setup, b, k);
    if p, v :| PlanNames(setup, a, k, p, Set(v)) { SamePlans(setup, a, b, k, p, Set(v)); }
  }

  lemma SameTables(s: Table, t: Table)
    requires forall k :: s.Has(k) <==> t.Has(k)
    requires forall k, p :: CellOf(s, k, p) == CellOf(t, k, p)
    ensures s.at == t.at
  {
    assert forall k :: k in s.at <==> k in t.at by {
      forall k ensures k in s.at <==> k in t.at { assert s.Has(k) <==> t.Has(k); }
    }
    forall k | k in s.at ensures s.at[k] == t.at[k] {
      forall p ensures p in s.at[k] <==> p in t.at[k] { assert CellOf(s, k, p) == CellOf(t, k, p); }
      forall p | p in s.at[k] ensures s.at[k][p] == t.at[k][p] { assert CellOf(s, k, p) == CellOf(t, k, p); }
    }
  }

  // -------------------------------------------------------------------------- the import

  /** `resolveOccurrenceColumnState`: positions without booklets, or no booklet at all beside other
      columns, make the whole file lose its occurrences. */
  predicate WithOccurrences(columns: Columns, rows: seq<Row>) {
    && columns.booklet.Some?
    && !(exists i :: 0 <= i < |rows| && OptionalCell(rows[i], columns.booklet) == "" && OptionalCell(rows[i], columns.position) != "")
    && ((exists i :: 0 <= i < |rows| && OptionalCell(rows[i], columns.booklet) != "") || columns.at == map[])
  }

  function Verdicts(env: Env, columns: Columns, withOccurrences: bool, items: seq<Item>, rows: seq<Row>): seq<Verdict> {
    seq(|rows|, i requires 0 <= i < |rows| => VerdictOf(env, columns, withOccurrences, items, rows[i]))
  }

  predicate Single(columns: Columns) { columns.booklet == None && columns.position == None }

  function SetupOf(env: Env, columns: Columns, items: seq<Item>, source: Table, rows: seq<Row>): Setup {
    Setup(env, columns, WithOccurrences(columns, rows), items, source)
  }

  function Import(env: Env, columns: Columns, items: seq<Item>, source: Table, rows: seq<Row>): Result<Table, Conflict> {
    var setup := SetupOf(env, columns, items, source, rows);
    match Gather(Single(columns), Verdicts(env, columns, setup.withOccurrences, items, rows))
    case Err(e) => Err(e)
    case Ok(s) =>
      match Conflicts(setup, s.groups)
      case Some(e) => Err(e)
      case None => Ok(Applied(source, AllMutations(setup, s.groups)))
  }

  lemma {:induction false} FoundItem(items: seq<Item>, raw: string)
    ensures FindItem(items, raw).Some? ==> FindItem(items, raw).value in items
  {
    if items != [] && !Matches(items[0], Reference(raw)) { FoundItem(items[1..], raw); }
  }

  lemma VerdictsFromItems(env: Env, columns: Columns, w: bool, items: seq<Item>, rows: seq<Row>)
    ensures FromItems(Verdicts(env, columns, w, items, rows), items)
  {
    forall i | 0 <= i < |rows| ensures var v := VerdictOf(env, columns, w, items, rows[i]); v.Matched? ==> v.item in items && Trimmed(v.subId) {
      FoundItem(items, Cell(rows[i], columns.item));
      if columns.subId.Some? && columns.subId.value < |rows[i]| { TrimIsTrimmed(rows[i][columns.subId.value]); }
    }
  }

  /** The same rows, in any order. */
  ghost predicate SameRows(a: seq<Row>, b: seq<Row>) { forall r :: r in a <==> r in b }

  lemma SameColumnState(columns: Columns, a: seq<Row>, b: seq<Row>)
    requires SameRows(a, b)
    ensures WithOccurrences(columns, a) ==> WithOccurrences(columns, b)
  {
    if WithOccurrences(columns, a) {
      forall i | 0 <= i < |b| ensures !(OptionalCell(b[i], columns.booklet) == "" && OptionalCell(b[i], columns.position) != "") {
        assert b[i] in a;
      }
      if columns.at != map[] {
        var i :| 0 <= i < |a| && OptionalCell(a[i], columns.booklet) != "";
        assert a[i] in b;
      }
    }
  }

  lemma VerdictMoves(env: Env, columns: Columns, w: bool, items: seq<Item>, a: seq<Row>, b: seq<Row>, v: Verdict)
    requires SameRows(a, b) && v in Verdicts(env, columns, w, items, a)
    ensures v in Verdicts(env, columns, w, items, b)
  {
    var i :| 0 <= i < |a| && VerdictOf(env, columns, w, items, a[i]) == v;
    assert a[i] in b;
    var j :| 0 <= j < |b| && b[j] == a[i];
    assert Verdicts(env, columns, w, items, b)[j] == v;
  }

  lemma SameVerdicts(env: Env, columns: Columns, w: bool, items: seq<Item>, a: seq<Row>, b: seq<Row>)
    requires SameRows(a, b)
    ensures SameLines(Verdicts(env, columns, w, items, a), Verdicts(env, columns, w, items, b))
  {
    forall v ensures v in Verdicts(env, columns, w, items, a) <==> v in Verdicts(env, columns, w, items, b) {
      if v in Verdicts(env, columns, w, items, a) { VerdictMoves(env, columns, w, items, a, b, v); }
      if v in Verdicts(env, columns, w, items, b) { VerdictMoves(env, columns, w, items, b, a, v); }
    }
  }

  /** An import that goes through has well-formed groups without conflicts. */
  lemma ImportedGroups(env: Env, columns: Columns, items: seq<Item>, source: Table, rows: seq<Row>) returns (groups: JsMap<string, Group>)
    requires ItemsOk(items) && Import(env, columns, items, source, rows).Ok?
    ensures var setup := SetupOf(env, columns, items, source, rows);
      && GroupsOk(items, groups) && NoConflict(setup, groups)
      && Gather(Single(columns), Verdicts(env, columns, setup.withOccurrences, items, rows)).Ok?
      && groups == Gather(Single(columns), Verdicts(env, columns, setup.withOccurrences, items, rows)).value.groups
      && Import(env, columns, items, source, rows) == Ok(Applied(source, AllMutations(setup, groups)))
  {
    var setup := SetupOf(env, columns, items, source, rows);
    var vs := Verdicts(env, columns, setup.withOccurrences, items, rows);
    VerdictsFromItems(env, columns, setup.withOccurrences, items, rows);
    GatheredGroupsOk(Single(columns), vs, items);
    groups := Gather(Single(columns), vs).value.groups;
  }

  lemma OrderOfRowsDoesNotMatter(env: Env, columns: Columns, items: seq<Item>, source: Table, a: seq<Row>, b: seq<Row>)
    requires StrictOrder(env) && ItemsOk(items) && SameRows(a, b)
    requires Import(env, columns, items, source, a).Ok? && Import(env, columns, items, source, b).Ok?
    ensures Import(env, columns, items, source, a).value.at == Import(env, columns, items, source, b).value.at
  {
    SameColumnState(columns, a, b);
    SameColumnState(columns, b, a);
    var setup := SetupOf(env, columns, items, source, a);
    var ga := ImportedGroups(env, columns, items, source, a);
    var gb := ImportedGroups(env, columns, items, source, b);
    var w := setup.withOccurrences;
    SameVerdicts(env, columns, w, items, a, b);
    VerdictsFromItems(env, columns, w, items, a);
    VerdictsFromItems(env, columns, w, items, b);
    OrderOfLinesKeepsGroups(env, Single(columns), Verdicts(env, columns, w, items, a), Verdicts(env, columns, w, items, b), items);
    SameResults(setup, ga, gb);
  }

  lemma SameResults(setup: Setup, a: JsMap<string, Group>, b: JsMap<string, Group>)
    requires ItemsOk(setup.items) && GroupsOk(setup.items, a) && GroupsOk(setup.items, b)
    requires SameGroups(setup.env, a, b) && NoConflict(setup, a) && NoConflict(setup, b)
    ensures Applied(setup.source, AllMutations(setup, a)).at == Applied(setup.source, AllMutations(setup, b)).at
  {
    var s, t := Applied(setup.source, AllMutations(setup, a)), Applied(setup.source, AllMutations(setup, b));
    SameGroupsSymmetric(setup.env, a, b);
    forall k ensures s.Has(k) <==> t.Has(k) {
      if s.Has(k) { SameKeys(setup, a, b, k); }
      if t.Has(k) { SameKeys(setup, b, a, k); }
    }
    forall k, p ensures CellOf(s, k, p) == CellOf(t, k, p) { SameCells(setup, a, b, k, p); }
    SameTables(s, t);
  }

  /** The rows of the data lines of a file; a blank line is a row of blank cells. */
  function RowsOf(lines: seq<string>): seq<Row> {
    seq(|lines|, i requires 0 <= i < |lines| => Cells(Trim(lines[i]), 0, [], "", false))
  }

  function ImportLines(env: Env, columns: Columns, items: seq<Item>, source: Table, lines: seq<string>): Result<Table, Conflict> {
    Import(env, columns, items, source, RowsOf(lines))
  }

  lemma RowsMove(a: seq<string>, b: seq<string>, r: Row)
    requires multiset(a) == multiset(b) && r in RowsOf(a)
    ensures r in RowsOf(b)
  {
    var i :| 0 <= i < |a| && RowsOf(a)[i] == r;
    assert a[i] in multiset(a);
    assert a[i] in multiset(b);
    var j :| 0 <= j < |b| && b[j] == a[i];
    assert RowsOf(b)[j] == r;
  }

  /** Two orders of the same lines that both go through leave the same item properties. */
  lemma OrderOfLinesDoesNotMatter(env: Env, columns: Columns, items: seq<Item>, source: Table, a: seq<string>, b: seq<string>)
    requires StrictOrder(env) && ItemsOk(items) && multiset(a) == multiset(b)
    requires ImportLines(env, columns, items, source, a).Ok? && ImportLines(env, columns, items, source, b).Ok?
    ensures ImportLines(env, columns, items, source, a).value.at == ImportLines(env, columns, items, source, b).value.at
  {
    forall r ensures r in RowsOf(a) <==> r in RowsOf(b) {
      if r in RowsOf(a) { RowsMove(a, b, r); }
      if r in RowsOf(b) { RowsMove(b, a, r); }
    }
    OrderOfRowsDoesNotMatter(env, columns, items, source, RowsOf(a), RowsOf(b));
  }

  // ------------------------------------------------------------------ what the explorer shows

  function PropsOf(t: Table, k: string): Properties { if t.Has(k) then t.at[k] else map[] }

  /** `resolveItemProperties`: earlier candidates win. */
  function Resolve(t: Table, candidates: seq<string>): Properties {
    if candidates == [] then map[] else Resolve(t, candidates[1..]) + PropsOf(t, candidates[0])
  }

  method ResolveItemProperties(t: Table, candidates: seq<string>) returns (merged: Properties)
    ensures merged == Resolve(t, candidates)
  {
    merged := map[];
    var i := |candidates|;
    while i > 0
      invariant 0 <= i <= |candidates| && merged == Resolve(t, candidates[i..])
    {
      i := i - 1;
      assert candidates[i..][1..] == candidates[i + 1..];
      merged := merged + PropsOf(t, candidates[i]);
    }
    assert candidates[0..] == candidates;
  }

  function RowsAt(indexed: map<string, seq<string>>, uuid: string): seq<string> {
    if uuid in indexed then indexed[uuid] else []
  }

  ghost predicate Indexes(indexed: map<string, seq<string>>, order: seq<string>) {
    forall u :: RowsAt(indexed, u) == PartialKeys(order, u)
  }

  lemma PartialKeysStep(order: seq<string>, i: nat, u: string)
    requires i < |order|
    ensures PartialKeys(order[..i + 1], u) == if UuidOf(order[i]) == Some(u) then PartialKeys(order[..i], u) + [order[i]] else PartialKeys(order[..i], u)
  {
    assert order[..i + 1][..i] == order[..i];
    assert PartialKeys(order[..i], u) + [] == PartialKeys(order[..i], u);
  }

  lemma IndexOneMore(indexed: map<string, seq<string>>, order: seq<string>, i: nat)
    requires i < |order| && Indexes(indexed, order[..i])
    ensures match UuidOf(order[i])
      case None => Indexes(indexed, order[..i + 1])
      case Some(u) => Indexes(indexed[u := RowsAt(indexed, u) + [order[i]]], order[..i + 1])
  {
    var uuid := UuidOf(order[i]);
    var next := if uuid.Some? then indexed[uuid.value := RowsAt(indexed, uuid.value) + [order[i]]] else indexed;
    forall u ensures RowsAt(next, u) == PartialKeys(order[..i + 1], u) {
      PartialKeysStep(order, i, u);
      assert RowsAt(next, u) == if uuid == Some(u) then RowsAt(indexed, u) + [order[i]] else RowsAt(indexed, u);
      assert RowsAt(indexed, u) == PartialKeys(order[..i], u);
    }
  }

  /** `indexPartialCreditRows` */
  method IndexPartialCreditRows(t: Table) returns (indexed: map<string, seq<string>>)
    ensures Indexes(indexed, t.order)
  {
    indexed := map[];
    for i := 0 to |t.order|
      invariant Indexes(indexed, t.order[..i])
    {
      IndexOneMore(indexed, t.order, i);
      var uuid := UuidOf(t.order[i]);
      if uuid == None { continue; }
      indexed := indexed[uuid.value := RowsAt(indexed, uuid.value) + [t.order[i]]];
    }
    assert t.order[..|t.order|] == t.order;
  }

  /** The rows of an item: its partial rows, or itself. */
  function ExplorerRows(t: Table, uuid: string): seq<string> {
    if PartialKeys(t.order, uuid) != [] then PartialKeys(t.order, uuid) else [BuildItemRowKey(uuid, "")]
  }

  /** The properties of a row over those of its item; `others` are the item's further names. */
  function Shown(t: Table, uuid: string, others: seq<string>, row: string): Properties {
    var base := Resolve(t, [uuid] + others);
    base + if UuidOf(row) == Some(uuid) then PropsOf(t, row) else base
  }

  lemma {:induction false} AppliedValid(t: Table, ms: seq<Mutation>)
    requires t.Valid()
    ensures Applied(t, ms).Valid()
  {
    if ms != [] {
      AppliedValid(t, ms[..|ms| - 1]);
      MutationValid(Applied(t, ms[..|ms| - 1]), ms[|ms| - 1], ms[|ms| - 1].targets);
    }
  }

  lemma {:induction false} MutationValid(t: Table, m: Mutation, targets: seq<string>)
    requires t.Valid()
    ensures ApplyMutation(t, m, targets).Valid()
  {
    if targets != [] { MutationValid(t, m, targets[..|targets| - 1]); }
  }

  lemma RowsSetNothingNew(setup: Setup, groups: JsMap<string, Group>, key: string, l: string, k: string, p: Property, v: Value)
    requires ItemsOk(setup.items) && GroupsOk(setup.items, groups) && groups.Has(key) && groups.Has(l) && groups.at[key].subId == ""
    requires UuidOf(k) == Some(groups.at[key].uuid) && k !in setup.source.order
    ensures !GroupNames(setup, l, groups.at[l], k, p, Set(v))
  {
    var g, h := groups.at[key], groups.at[l];
    GroupListed(setup.items, groups, key);
    GroupListed(setup.items, groups, l);
    if GroupNames(setup, l, h, k, p, Set(v)) {
      ListedApart(setup.items, g.uuid, h.uuid);
      NamedTouches(setup, l, h, k, p, Set(v));
      TouchesOne(k, g.uuid, h.uuid);
      assert k in Affected(setup.source, l, h);
      PartialKeysOf(setup.source.order, h.uuid, k);
      assert k == l == BuildItemRowKey(h.uuid, "");
      SelfApart(h.uuid);
      RowOwner(h.uuid, "", h.uuid);
    }
  }

  /** No plan sets anything at a partial row of an item that is named as a whole. */
  lemma NoNewPartialRows(setup: Setup, groups: JsMap<string, Group>, key: string, k: string, p: Property, v: Value)
    requires ItemsOk(setup.items) && GroupsOk(setup.items, groups) && groups.Has(key) && groups.at[key].subId == ""
    requires UuidOf(k) == Some(groups.at[key].uuid) && k !in setup.source.order
    ensures !PlanNames(setup, groups, k, p, Set(v))
  {
    if PlanNames(setup, groups, k, p, Set(v)) {
      OwnProperties(setup, groups, k, p, Set(v));
      if RowPhaseProperty(p) {
        var l :| groups.Has(l) && GroupNames(setup, l, groups.at[l], k, p, Set(v));
        RowsSetNothingNew(setup, groups, key, l, k, p, v);
      } else {
        GroupListed(setup.items, groups, key);
        OnlyCleared(setup, groups, groups.at[key].uuid, k, p, Set(v));
      }
    }
  }

  /** Properties of items or units as a whole. */
  predicate OfScope(p: Property) { OfWholeItems(p) || p == StimulusTimeSeconds }

  predicate OfWholeItems(p: Property) { p == ItemTimeSeconds || p == CompetenceLevel }

  lemma ClearedAtRow(items: seq<Item>, source: Table, uuid: string, u: string, q: Property, values: seq<Value>, k: string, p: Property, a: Action)
    requires ItemsOk(items) && Listed(items, uuid) && Listed(items, u) && UuidOf(k) == Some(uuid)
    requires ItemNames(source, u, q, values, k, p, a)
    ensures a == Clear
  {
    ListedApart(items, u, uuid);
    RawOwner(u, uuid);
  }

  /** Properties of whole items are only ever cleared at partial rows of an item. */
  lemma OnlyCleared(setup: Setup, groups: JsMap<string, Group>, uuid: string, k: string, p: Property, a: Action)
    requires ItemsOk(setup.items) && GroupsOk(setup.items, groups) && Listed(setup.items, uuid)
    requires UuidOf(k) == Some(uuid) && OfScope(p) && PlanNames(setup, groups, k, p, a)
    ensures a == Clear
  {
    OwnProperties(setup, groups, k, p, a);
    if p == StimulusTimeSeconds {
      var s := ScopedValues(setup, groups, p, true);
      var c :| s.Has(c) && UnitNames(setup.source, setup.items, c, p, s.at[c], k, p, a);
      var u :| u in UuidsOfUnit(setup.items, c) && ItemNames(setup.source, u, p, s.at[c], k, p, a);
      UuidsOfUnitAre(setup.items, c, u);
      ClearedAtRow(setup.items, setup.source, uuid, u, p, s.at[c], k, p, a);
    } else {
      var s := ScopedValues(setup, groups, p, false);
      var u :| s.Has(u) && ItemNames(setup.source, u, p, s.at[u], k, p, a);
      ScopeIsListed(setup, groups, p, u);
      ClearedAtRow(setup.items, setup.source, uuid, u, p, s.at[u], k, p, a);
    }
  }

  lemma StaysWhole(setup: Setup, groups: JsMap<string, Group>, key: string)
    requires ItemsOk(setup.items) && GroupsOk(setup.items, groups) && setup.source.Valid()
    requires groups.Has(key) && groups.at[key].subId == "" && PartialKeys(setup.source.order, groups.at[key].uuid) == []
    ensures PartialKeys(Applied(setup.source, AllMutations(setup, groups)).order, groups.at[key].uuid) == []
  {
    var next, uuid := Applied(setup.source, AllMutations(setup, groups)), groups.at[key].uuid;
    AppliedValid(setup.source, AllMutations(setup, groups));
    if PartialKeys(next.order, uuid) != [] {
      var k := PartialKeys(next.order, uuid)[0];
      PartialKeysOf(next.order, uuid, k);
      PartialKeysOf(setup.source.order, uuid, k);
      SetIsNamed(setup, groups, k);
      var p, v :| PlanNames(setup, groups, k, p, Set(v));
      NoNewPartialRows(setup, groups, key, k, p, v);
    }
  }

  lemma WrittenCell(setup: Setup, groups: JsMap<string, Group>, key: string, k: string, p: Property, v: Value)
    requires ItemsOk(setup.items) && GroupsOk(setup.items, groups) && groups.Has(key)
    requires k in Affected(setup.source, key, groups.at[key]) && WrittenProperty(setup, groups.at[key], p)
    requires Written(setup, groups.at[key], k, p) == Set(v)
    ensures CellOf(Applied(setup.source, AllMutations(setup, groups)), k, p) == Some(v)
  {
    assert GroupNames(setup, key, groups.at[key], k, p, Set(v));
    CellAfter(setup, groups, k, p, Set(v));
  }

  /** A uuid with which the Explorer finds the rows that an import writes. */
  predicate Findable(uuid: string, subId: string) { Trimmed(uuid) && (subId != "" ==> Separable(uuid)) }

  /** The Explorer never lists a partial row of an item whose uuid cannot be told from its sub id. */
  lemma RowNeverListed(t: Table, uuid: string, subId: string)
    requires Trimmed(subId) && subId != "" && !Findable(uuid, subId)
    ensures BuildItemRowKey(uuid, subId) !in ExplorerRows(t, uuid)
  {
    var k := BuildItemRowKey(uuid, subId);
    RecognisedExactly(uuid, subId);
    PartialKeysOf(t.order, uuid, k);
    SelfApart(uuid);
    if k == BuildItemRowKey(uuid, "") { KeyDetermines(uuid, subId, uuid, ""); }
  }

  lemma AffectedRow(source: Table, key: string, g: Group, k: string)
    requires Trimmed(g.subId) && key == BuildItemRowKey(g.uuid, g.subId) && Findable(g.uuid, g.subId) && k in Affected(source, key, g)
    ensures UuidOf(k) == Some(g.uuid) || (k == key == g.uuid && g.subId == "" && PartialKeys(source.order, g.uuid) == [])
  {
    PartialKeysOf(source.order, g.uuid, k);
    TrimFixpoint(g.uuid);
    TrimFixpoint(g.subId);
    if g.subId != "" { RecognisedExactly(g.uuid, g.subId); }
  }

  /** The item has this row, and the row shows the value. */
  predicate ShowsAt(t: Table, uuid: string, others: seq<string>, k: string, p: Property, v: Value) {
    k in ExplorerRows(t, uuid) && Get(Shown(t, uuid, others, k), p) == Some(v)
  }

  lemma FoundCellsAreShown(setup: Setup, groups: JsMap<string, Group>, key: string, k: string, p: Property, v: Value, others: seq<string>)
    requires ItemsOk(setup.items) && GroupsOk(setup.items, groups) && setup.source.Valid() && groups.Has(key)
    requires Findable(groups.at[key].uuid, groups.at[key].subId)
    requires k in Affected(setup.source, key, groups.at[key]) && WrittenProperty(setup, groups.at[key], p)
    requires Written(setup, groups.at[key], k, p) == Set(v)
    ensures ShowsAt(Applied(setup.source, AllMutations(setup, groups)), groups.at[key].uuid, others, k, p, v)
  {
    var g := groups.at[key];
    var next := Applied(setup.source, AllMutations(setup, groups));
    GroupListed(setup.items, groups, key);
    WrittenCell(setup, groups, key, k, p, v);
    AppliedValid(setup.source, AllMutations(setup, groups));
    AffectedRow(setup.source, key, g, k);
    PartialKeysOf(next.order, g.uuid, k);
    if UuidOf(k) != Some(g.uuid) {
      StaysWhole(setup, groups, key);
      assert ([g.uuid] + others)[1..] == others;
    }
  }

  /** An item whose uuid is not trimmed has no partial rows. */
  lemma UntrimmedHasNoRows(order: seq<string>, uuid: string)
    requires !Trimmed(uuid)
    ensures PartialKeys(order, uuid) == [] && forall k :: UuidOf(k) != Some(uuid)
  {
    forall k ensures UuidOf(k) != Some(uuid) {
      if UuidOf(k) == Some(uuid) { var t := OwnedKey(k, uuid); }
    }
    if PartialKeys(order, uuid) != [] { PartialKeysOf(order, uuid, PartialKeys(order, uuid)[0]); }
  }

  /** What is written for such an item goes below the trimmed uuid, and the entry of the uuid itself,
      which is the one that is looked up, stays as it is. */
  lemma RawEntryStays(setup: Setup, groups: JsMap<string, Group>, key: string, p: Property)
    requires ItemsOk(setup.items) && GroupsOk(setup.items, groups) && groups.Has(key)
    requires groups.at[key].subId == "" && !Trimmed(groups.at[key].uuid) && RowPhaseProperty(p)
    ensures CellOf(Applied(setup.source, AllMutations(setup, groups)), groups.at[key].uuid, p) == CellOf(setup.source, groups.at[key].uuid, p)
  {
    var uuid := groups.at[key].uuid;
    forall a ensures !PlanNames(setup, groups, uuid, p, a) {
      if PlanNames(setup, groups, uuid, p, a) {
        OwnProperties(setup, groups, uuid, p, a);
        var l :| groups.Has(l) && GroupNames(setup, l, groups.at[l], uuid, p, a);
        NotNamedRaw(setup, groups, key, l, p, a);
      }
    }
    UnnamedCellsStay(setup, groups, uuid, p);
  }

  lemma NotNamedRaw(setup: Setup, groups: JsMap<string, Group>, key: string, l: string, p: Property, a: Action)
    requires ItemsOk(setup.items) && GroupsOk(setup.items, groups) && groups.Has(key) && groups.Has(l)
    requires groups.at[key].subId == "" && !Trimmed(groups.at[key].uuid)
    ensures !GroupNames(setup, l, groups.at[l], groups.at[key].uuid, p, a)
  {
    var uuid, h := groups.at[key].uuid, groups.at[l];
    if GroupNames(setup, l, h, uuid, p, a) {
      GroupListed(setup.items, groups, key);
      GroupListed(setup.items, groups, l);
      ListedApart(setup.items, uuid, h.uuid);
      NamedTouches(setup, l, h, uuid, p, a);
      TouchesRaw(uuid, h.uuid);
      UntrimmedHasNoRows(setup.source.order, uuid);
      TrimFixpoint(uuid);
    }
  }

  /** What the rows of an item show if the entry of its uuid is not written to. */
  function Untouched(source: Table, next: Table, uuid: string, others: seq<string>, p: Property): Option<Value> {
    if CellOf(source, uuid, p).Some? then CellOf(source, uuid, p) else Get(Resolve(next, others), p)
  }

  /** A row that is no partial row shows the entry of the uuid, and else what the further names give. */
  lemma ShownOfWhole(t: Table, uuid: string, others: seq<string>, k: string, p: Property)
    requires UuidOf(k) != Some(uuid)
    ensures Get(Shown(t, uuid, others, k), p) == if CellOf(t, uuid, p).Some? then CellOf(t, uuid, p) else Get(Resolve(t, others), p)
  {
    assert ([uuid] + others)[1..] == others;
    assert Resolve(t, [uuid] + others) == Resolve(t, others) + PropsOf(t, uuid);
  }

  /** An item whose uuid is not trimmed does not show what is written for it. */
  lemma UntrimmedShowsOld(setup: Setup, groups: JsMap<string, Group>, key: string, p: Property, others: seq<string>, k: string)
    requires ItemsOk(setup.items) && GroupsOk(setup.items, groups) && groups.Has(key)
    requires groups.at[key].subId == "" && !Trimmed(groups.at[key].uuid) && RowPhaseProperty(p)
    ensures var next, uuid := Applied(setup.source, AllMutations(setup, groups)), groups.at[key].uuid;
      Get(Shown(next, uuid, others, k), p) == Untouched(setup.source, next, uuid, others, p)
  {
    var next, uuid := Applied(setup.source, AllMutations(setup, groups)), groups.at[key].uuid;
    RawEntryStays(setup, groups, key, p);
    UntrimmedHasNoRows(next.order, uuid);
    ShownOfWhole(next, uuid, others, k, p);
  }

  /** A value that is written into an affected row is what that row shows afterwards exactly if the
      Explorer finds the row; if not, an item as a whole can only show the same value by what it had. */
  lemma RowCellsAreShown(setup: Setup, groups: JsMap<string, Group>, key: string, k: string, p: Property, v: Value, others: seq<string>)
    requires ItemsOk(setup.items) && GroupsOk(setup.items, groups) && setup.source.Valid() && groups.Has(key)
    requires k in Affected(setup.source, key, groups.at[key]) && WrittenProperty(setup, groups.at[key], p)
    requires Written(setup, groups.at[key], k, p) == Set(v)
    ensures var next, uuid, subId := Applied(setup.source, AllMutations(setup, groups)), groups.at[key].uuid, groups.at[key].subId;
      ShowsAt(next, uuid, others, k, p, v) <==>
        Findable(uuid, subId) || (subId == "" && Untouched(setup.source, next, uuid, others, p) == Some(v))
  {
    var next, uuid, subId := Applied(setup.source, AllMutations(setup, groups)), groups.at[key].uuid, groups.at[key].subId;
    GroupListed(setup.items, groups, key);
    if Findable(uuid, subId) {
      FoundCellsAreShown(setup, groups, key, k, p, v, others);
    } else if subId != "" {
      RowNeverListed(next, uuid, subId);
    } else {
      UntrimmedHasNoRows(setup.source.order, uuid);
      UntrimmedHasNoRows(next.order, uuid);
      UntrimmedShowsOld(setup, groups, key, p, others, k);
    }
  }

  /** A name under which nothing of the catalogue is stored. */
  ghost predicate Foreign(items: seq<Item>, name: string) { forall i :: i in items ==> !Touches(name, i.uuid) }

  lemma ForeignCellStays(setup: Setup, groups: JsMap<string, Group>, name: string, p: Property)
    requires GroupsOk(setup.items, groups) && Foreign(setup.items, name) && RowPhaseProperty(p)
    ensures CellOf(Applied(setup.source, AllMutations(setup, groups)), name, p) == CellOf(setup.source, name, p)
  {
    forall a ensures !PlanNames(setup, groups, name, p, a) {
      if PlanNames(setup, groups, name, p, a) {
        OwnProperties(setup, groups, name, p, a);
        var l :| groups.Has(l) && GroupNames(setup, l, groups.at[l], name, p, a);
        GroupListed(setup.items, groups, l);
        NamedTouches(setup, l, groups.at[l], name, p, a);
      }
    }
    UnnamedCellsStay(setup, groups, name, p);
  }

  /** Further names of an item that are foreign give what they gave before. */
  lemma {:induction false} ForeignNamesStay(setup: Setup, groups: JsMap<string, Group>, others: seq<string>, p: Property)
    requires GroupsOk(setup.items, groups) && (forall o :: o in others ==> Foreign(setup.items, o)) && RowPhaseProperty(p)
    ensures Get(Resolve(Applied(setup.source, AllMutations(setup, groups)), others), p) == Get(Resolve(setup.source, others), p)
  {
    if others != [] {
      assert others[0] in others;
      ForeignCellStays(setup, groups, others[0], p);
      ForeignNamesStay(setup, groups, others[1..], p);
    }
  }

  /** So before the import one can say what is shown without it. */
  lemma UntouchedBefore(setup: Setup, groups: JsMap<string, Group>, uuid: string, others: seq<string>, p: Property)
    requires GroupsOk(setup.items, groups) && (forall o :: o in others ==> Foreign(setup.items, o)) && RowPhaseProperty(p)
    ensures Untouched(setup.source, Applied(setup.source, AllMutations(setup, groups)), uuid, others, p) == Get(Resolve(setup.source, [uuid] + others), p)
  {
    ForeignNamesStay(setup, groups, others, p);
    assert ([uuid] + others)[1..] == others;
  }

  /** The rows that a line is written to. */
  function RowsNamed(source: Table, uuid: string, subId: string): seq<string> {
    if subId == "" && PartialKeys(source.order, uuid) != [] then PartialKeys(source.order, uuid) else [BuildItemRowKey(uuid, subId)]
  }

  predicate Importable(p: Property) { p in SCALARS || p in TEXTS }

  lemma ContentExactly(env: Env, columns: Columns, w: bool, row: Row, p: Property)
    requires ContentOf(env, columns, w, row).Ok?
    ensures var values := ContentOf(env, columns, w, row).value.values;
      && (p in values <==> Importable(p) && p in columns.at && Cell(row, columns.at[p]) != "")
      && (Importable(p) && p in columns.at ==>
            Valid(env, p, Cell(row, columns.at[p])) && (p in values ==> values[p] == ValueOf(env, p, Cell(row, columns.at[p]))))
  {
    ImportedOf(columns, SCALARS, p);
    ImportedOf(columns, TEXTS, p);
    ReadExactly(env, columns, row, Imported(columns, SCALARS), p);
    ReadExactly(env, columns, row, Imported(columns, TEXTS), p);
  }

  /** An accepted line carries a value of a property exactly if there is a column for it and the cell
      is not blank; it is the value of the cell. */
  lemma AcceptedCells(env: Env, columns: Columns, w: bool, items: seq<Item>, row: Row, p: Property)
    requires Accepted(VerdictOf(env, columns, w, items, row))
    ensures var values := VerdictOf(env, columns, w, items, row).content.value.values;
      && (p in values <==> Importable(p) && p in columns.at && Cell(row, columns.at[p]) != "")
      && (p in values ==> Valid(env, p, Cell(row, columns.at[p])) && values[p] == ValueOf(env, p, Cell(row, columns.at[p])))
  {
    ContentExactly(env, columns, w, row, p);
  }

  lemma LineHasValue(vs: seq<Verdict>, v: Verdict, k: string, p: Property, x: Value)
    requires v in vs && Carries(v, k, p, x)
    ensures HasRow(vs, k) && HasValue(vs, k, p, x)
  {
  }

  lemma AgreedValue(groups: JsMap<string, Group>, k: string, p: Property, x: Value)
    requires GroupsAgree(groups) && groups.Has(k) && x in Values(groups.at[k], p)
    ensures Values(groups.at[k], p) == [x]
  {
    assert GroupAgrees(groups.at[k]);
  }

  lemma ValueOfLine(single: bool, vs: seq<Verdict>, v: Verdict, p: Property, x: Value)
    requires v in vs && Accepted(v) && p in v.content.value.values && v.content.value.values[p] == x
    requires Gather(single, vs).Ok? && GroupsAgree(Gather(single, vs).value.groups)
    ensures var groups := Gather(single, vs).value.groups;
      groups.Has(RowKeyOf(v)) && Values(groups.at[RowKeyOf(v)], p) == [x]
  {
    var k := RowKeyOf(v);
    LineHasValue(vs, v, k, p, x);
    GroupKeys(single, vs, k);
    GroupValues(single, vs, k, p, x);
    AgreedValue(Gather(single, vs).value.groups, k, p, x);
  }

  lemma LineIsShown(setup: Setup, single: bool, vs: seq<Verdict>, v: Verdict, p: Property, x: Value, k: string, others: seq<string>)
    requires ItemsOk(setup.items) && FromItems(vs, setup.items) && setup.source.Valid() && Gather(single, vs).Ok?
    requires GroupsOk(setup.items, Gather(single, vs).value.groups) && GroupsAgree(Gather(single, vs).value.groups)
    requires v in vs && Accepted(v) && p in v.content.value.values && v.content.value.values[p] == x
    requires RowScoped(p) && p in setup.columns.at && k in RowsNamed(setup.source, v.item.uuid, v.subId)
    ensures var next := Applied(setup.source, AllMutations(setup, Gather(single, vs).value.groups));
      ShowsAt(next, v.item.uuid, others, k, p, x) <==>
        Findable(v.item.uuid, v.subId) || (v.subId == "" && Untouched(setup.source, next, v.item.uuid, others, p) == Some(x))
  {
    var groups, key := Gather(single, vs).value.groups, RowKeyOf(v);
    ValueOfLine(single, vs, v, p, x);
    var line := LineOfGroup(single, vs, setup.items, key);
    assert Apart(v.item.uuid, line.item.uuid);
    KeyDetermines(v.item.uuid, v.subId, line.item.uuid, line.subId);
    RowCellsAreShown(setup, groups, key, k, p, x, others);
  }

  /** After an import, each row that a line is written to shows the value of each of the line's cells
      that are not blank, exactly if the Explorer finds the row; if not, an item as a whole can only
      show the same value by what it had. */
  lemma ImportedCellsAreShown(env: Env, columns: Columns, items: seq<Item>, source: Table, rows: seq<Row>, i: nat, p: Property, k: string, others: seq<string>)
    requires ItemsOk(items) && source.Valid() && Import(env, columns, items, source, rows).Ok?
    requires i < |rows| && RowScoped(p) && p in columns.at && Cell(rows[i], columns.at[p]) != ""
    requires var v := VerdictOf(env, columns, WithOccurrences(columns, rows), items, rows[i]);
      Accepted(v) && k in RowsNamed(source, v.item.uuid, v.subId)
    ensures var next, v := Import(env, columns, items, source, rows).value, VerdictOf(env, columns, WithOccurrences(columns, rows), items, rows[i]);
      var raw := Cell(rows[i], columns.at[p]);
      && Valid(env, p, raw)
      && (ShowsAt(next, v.item.uuid, others, k, p, ValueOf(env, p, raw)) <==>
            Findable(v.item.uuid, v.subId) || (v.subId == "" && Untouched(source, next, v.item.uuid, others, p) == Some(ValueOf(env, p, raw))))
    ensures (forall o :: o in others ==> Foreign(items, o)) ==>
      forall uuid :: Untouched(source, Import(env, columns, items, source, rows).value, uuid, others, p) == Get(Resolve(source, [uuid] + others), p)
  {
    var setup := SetupOf(env, columns, items, source, rows);
    var w := setup.withOccurrences;
    var vs := Verdicts(env, columns, w, items, rows);
    assert vs[i] in vs;
    var groups := ImportedGroups(env, columns, items, source, rows);
    RowScopedHasColumn(p);
    AcceptedCells(env, columns, w, items, rows[i], p);
    VerdictsFromItems(env, columns, w, items, rows);
    LineIsShown(setup, Single(columns), vs, vs[i], p, ValueOf(env, p, Cell(rows[i], columns.at[p])), k, others);
    if forall o :: o in others ==> Foreign(items, o) {
      forall uuid ensures Untouched(source, Applied(source, AllMutations(setup, groups)), uuid, others, p) == Get(Resolve(source, [uuid] + others), p) {
        UntouchedBefore(setup, groups, uuid, others, p);
      }
    }
  }

  // ------------------------------------------------------------------- items and units as a whole
  //
  // After the import of a property of whole items, an item shows the value of its lines or none;
  // none of its rows, neither one that was there nor any other, has a value of its own.

  lemma NotInSource(setup: Setup, uuid: string, k: string, p: Property)
    requires setup.source.Valid() && UuidOf(k) == Some(uuid) && k !in PartialKeys(setup.source.order, uuid)
    ensures CellOf(setup.source, k, p) == None
  {
    PartialKeysOf(setup.source.order, uuid, k);
  }

  lemma OnlyClearIsNamed(setup: Setup, groups: JsMap<string, Group>, uuid: string, k: string, p: Property, a: Action)
    requires ItemsOk(setup.items) && GroupsOk(setup.items, groups) && Listed(setup.items, uuid) && UuidOf(k) == Some(uuid) && OfScope(p)
    ensures Names(AllMutations(setup, groups), k, p, a) ==> a == Clear
  {
    AllMutationsName(setup, groups, k, p, a);
    if PlanNames(setup, groups, k, p, a) { OnlyCleared(setup, groups, uuid, k, p, a); }
  }

  lemma ClearedOrAbsent(t: Table, ms: seq<Mutation>, k: string, p: Property)
    requires CellOf(t, k, p) == None && forall a :: Names(ms, k, p, a) ==> a == Clear
    ensures CellOf(Applied(t, ms), k, p) == None
  {
    AppliedCell(t, ms, k, p, Clear);
  }

  lemma StrayRowHasNone(setup: Setup, groups: JsMap<string, Group>, uuid: string, p: Property, k: string)
    requires ItemsOk(setup.items) && GroupsOk(setup.items, groups) && Listed(setup.items, uuid) && OfScope(p) && UuidOf(k) == Some(uuid)
    requires CellOf(setup.source, k, p) == None
    ensures CellOf(Applied(setup.source, AllMutations(setup, groups)), k, p) == None
  {
    forall a ensures Names(AllMutations(setup, groups), k, p, a) ==> a == Clear { OnlyClearIsNamed(setup, groups, uuid, k, p, a); }
    ClearedOrAbsent(setup.source, AllMutations(setup, groups), k, p);
  }

  lemma UnlistedRowHasNone(setup: Setup, groups: JsMap<string, Group>, uuid: string, p: Property, k: string)
    requires ItemsOk(setup.items) && GroupsOk(setup.items, groups) && setup.source.Valid() && Listed(setup.items, uuid)
    requires OfScope(p) && UuidOf(k) == Some(uuid)
    requires k !in PartialKeys(setup.source.order, uuid)
    ensures CellOf(Applied(setup.source, AllMutations(setup, groups)), k, p) == None
  {
    NotInSource(setup, uuid, k, p);
    StrayRowHasNone(setup, groups, uuid, p, k);
  }

  lemma ListedRowOfItemHasNone(setup: Setup, groups: JsMap<string, Group>, uuid: string, p: Property, k: string)
    requires ItemsOk(setup.items) && GroupsOk(setup.items, groups) && k in PartialKeys(setup.source.order, uuid)
    requires OfWholeItems(p) && ScopedValues(setup, groups, p, false).Has(uuid)
    ensures CellOf(Applied(setup.source, AllMutations(setup, groups)), k, p) == None
  {
    var scoped := ScopedValues(setup, groups, p, false);
    assert ItemNames(setup.source, uuid, p, scoped.at[uuid], k, p, Clear);
    assert ItemsName(setup.source, p, scoped, k, p, Clear);
    CellAfter(setup, groups, k, p, Clear);
  }

  lemma RowOfUnitHasNone(setup: Setup, groups: JsMap<string, Group>, item: Item, k: string)
    requires ItemsOk(setup.items) && GroupsOk(setup.items, groups) && setup.source.Valid() && UuidOf(k) == Some(item.uuid)
    requires item in setup.items && ScopedValues(setup, groups, StimulusTimeSeconds, true).Has(item.unitId)
    ensures CellOf(Applied(setup.source, AllMutations(setup, groups)), k, StimulusTimeSeconds) == None
  {
    if k in PartialKeys(setup.source.order, item.uuid) {
      ListedRowOfUnitHasNone(setup, groups, item, k);
    } else {
      UnlistedRowHasNone(setup, groups, item.uuid, StimulusTimeSeconds, k);
    }
  }

  lemma MentionedItemShowsItsValue(setup: Setup, groups: JsMap<string, Group>, p: Property, uuid: string)
    requires ItemsOk(setup.items) && GroupsOk(setup.items, groups)
    requires OfWholeItems(p) && ScopedValues(setup, groups, p, false).Has(uuid)
    ensures CellOf(Applied(setup.source, AllMutations(setup, groups)), uuid, p) == Outcome(SetOrClear(ScopedValues(setup, groups, p, false).at[uuid]), None)
  {
    var scoped := ScopedValues(setup, groups, p, false);
    var a := SetOrClear(scoped.at[uuid]);
    assert ItemNames(setup.source, uuid, p, scoped.at[uuid], uuid, p, a);
    assert ItemsName(setup.source, p, scoped, uuid, p, a);
    CellAfter(setup, groups, uuid, p, a);
  }

  lemma ListedRowOfUnitHasNone(setup: Setup, groups: JsMap<string, Group>, item: Item, k: string)
    requires ItemsOk(setup.items) && GroupsOk(setup.items, groups) && k in PartialKeys(setup.source.order, item.uuid)
    requires item in setup.items && ScopedValues(setup, groups, StimulusTimeSeconds, true).Has(item.unitId)
    ensures CellOf(Applied(setup.source, AllMutations(setup, groups)), k, StimulusTimeSeconds) == None
  {
    UnitItem(setup, groups, item, k, Clear);
    CellAfter(setup, groups, k, StimulusTimeSeconds, Clear);
  }

  lemma ItemOfMentionedUnitShowsItsValue(setup: Setup, groups: JsMap<string, Group>, item: Item)
    requires ItemsOk(setup.items) && GroupsOk(setup.items, groups)
    requires item in setup.items && ScopedValues(setup, groups, StimulusTimeSeconds, true).Has(item.unitId)
    ensures CellOf(Applied(setup.source, AllMutations(setup, groups)), item.uuid, StimulusTimeSeconds)
         == Outcome(SetOrClear(ScopedValues(setup, groups, StimulusTimeSeconds, true).at[item.unitId]), None)
  {
    var a := SetOrClear(ScopedValues(setup, groups, StimulusTimeSeconds, true).at[item.unitId]);
    UnitItem(setup, groups, item, item.uuid, a);
    CellAfter(setup, groups, item.uuid, StimulusTimeSeconds, a);
  }

  lemma UnitItem(setup: Setup, groups: JsMap<string, Group>, item: Item, k: string, a: Action)
    requires item in setup.items && ScopedValues(setup, groups, StimulusTimeSeconds, true).Has(item.unitId)
    requires ItemNames(setup.source, item.uuid, StimulusTimeSeconds, ScopedValues(setup, groups, StimulusTimeSeconds, true).at[item.unitId], k, StimulusTimeSeconds, a)
    ensures PlanNames(setup, groups, k, StimulusTimeSeconds, a)
  {
    var p, scoped, uuid := StimulusTimeSeconds, ScopedValues(setup, groups, StimulusTimeSeconds, true), item.uuid;
    UuidsOfUnitAre(setup.items, item.unitId, uuid);
    assert UnitNames(setup.source, setup.items, item.unitId, p, scoped.at[item.unitId], k, p, a);
    assert UnitsName(setup, p, scoped, k, p, a);
  }
}
