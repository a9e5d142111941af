/** What an import of item parameters leaves behind, whatever the order of the lines: every cell is
    named with one action at most, and that action depends on the lines, not on their order. */
module ItemParameterOutcome {
  import opened ItemParameterImport
  import opened ItemParameterPlan
  import opened ItemRowKey
  import opened JsMaps
  import opened Outcomes
  import opened Sorting
  import opened Text

  // ----------------------------------------------------------- what each part of a plan names

  lemma {:induction false} ClearsName(ps: seq<Property>, targets: seq<string>, k: string, p: Property, a: Action)
    ensures Names(Clears(ps, targets), k, p, a) <==> a == Clear && p in ps && k in targets
  {
    if ps != [] {
      var n := |ps| - 1;
      ClearsName(ps[..n], targets, k, p, a);
      NamesConcat(Clears(ps[..n], targets), [Mutation(Clear, ps[n], targets)], k, p, a);
      NamesOne(Mutation(Clear, ps[n], targets), k, p, a);
      assert ps == ps[..n] + [ps[n]];
    }
  }

  lemma {:induction false} WritesName(ps: seq<Property>, g: Group, targets: seq<string>, k: string, p: Property, a: Action)
    ensures Names(Writes(ps, g, targets), k, p, a) <==> a == SetOrClear(Values(g, p)) && p in ps && k in targets
  {
    if ps != [] {
      var n := |ps| - 1;
      var m := Mutation(SetOrClear(Values(g, ps[n])), ps[n], targets);
      WritesName(ps[..n], g, targets, k, p, a);
      NamesConcat(Writes(ps[..n], g, targets), [m], k, p, a);
      NamesOne(m, k, p, a);
      assert ps == ps[..n] + [ps[n]];
    }
  }

  lemma {:induction false} OccurrenceWritesName(env: Env, source: Table, g: Group, targets: seq<string>, k: string, p: Property, a: Action)
    ensures Names(OccurrenceWrites(env, source, g, targets), k, p, a)
       <==> a == Set(Resolved(env, source, k, g)) && p == BookletOccurrences && k in targets
  {
    if targets != [] {
      var n := |targets| - 1;
      var m := Mutation(Set(Resolved(env, source, targets[n], g)), BookletOccurrences, [targets[n]]);
      OccurrenceWritesName(env, source, g, targets[..n], k, p, a);
      NamesConcat(OccurrenceWrites(env, source, g, targets[..n]), [m], k, p, a);
      NamesOne(m, k, p, a);
      assert targets == targets[..n] + [targets[n]];
    }
  }

  lemma {:induction false} ImportedOf(columns: Columns, ps: seq<Property>, p: Property)
    ensures p in Imported(columns, ps) <==> p in ps && p in columns.at
  {
    if ps != [] {
      ImportedOf(columns, ps[..|ps| - 1], p);
      assert ps == ps[..|ps| - 1] + [ps[|ps| - 1]];
    }
  }

  lemma {:induction false} OnlyRowScopedOf(ps: seq<Property>, p: Property)
    ensures p in OnlyRowScoped(ps) <==> p in ps && RowScoped(p)
  {
    if ps != [] {
      OnlyRowScopedOf(ps[..|ps| - 1], p);
      assert ps == ps[..|ps| - 1] + [ps[|ps| - 1]];
    }
  }

  lemma RowPropertiesOf(columns: Columns, p: Property)
    ensures p in RowProperties(columns) <==> p in columns.at && RowScoped(p)
  {
    ImportedOf(columns, SCALARS, p);
    ImportedOf(columns, TEXTS, p);
    OnlyRowScopedOf(Imported(columns, SCALARS), p);
    OnlyRowScopedOf(Imported(columns, TEXTS), p);
    if RowScoped(p) { RowScopedHasColumn(p); }
  }

  lemma RowScopedHasColumn(p: Property)
    requires RowScoped(p)
    ensures p in SCALARS || p in TEXTS
  {
    if p == TextComplexity {
      assert TEXTS[0] == p;
    } else {
      var i := if p == EmpiricalDifficulty then 0 else if p == Bista then 1 else if p == Infit then 2 else if p == Discrimination then 3 else 4;
      assert SCALARS[i] == p;
    }
  }

  /** What is written into an affected row. */
  function Written(setup: Setup, g: Group, k: string, p: Property): Action {
    if p == ItemUuid then Set(Txt(g.uuid))
    else if p == SubId then Set(Txt(g.subId))
    else if p == BookletOccurrences then Set(Resolved(setup.env, setup.source, k, g))
    else SetOrClear(Values(g, p))
  }

  predicate RowPhaseProperty(p: Property) { RowScoped(p) || p == BookletOccurrences || p == ItemUuid || p == SubId }

  predicate WrittenProperty(setup: Setup, g: Group, p: Property) {
    ClearedProperty(setup, p) || ((p == ItemUuid || p == SubId) && g.subId != "")
  }

  lemma NothingNamed(k: string, p: Property, a: Action)
    ensures !Names([], k, p, a)
  {
  }

  predicate ClearedProperty(setup: Setup, p: Property) {
    (RowScoped(p) && p in setup.columns.at) || (p == BookletOccurrences && setup.withOccurrences)
  }

  /** The cells that the mutations of a group name: its rows, and the base entry to be cleared. */
  ghost predicate NamesAt(setup: Setup, g: Group, targets: seq<string>, k: string, p: Property, a: Action) {
    || (k in targets && WrittenProperty(setup, g, p) && a == Written(setup, g, k, p))
    || (k == g.uuid && (g.subId != "" || |targets| > 1) && a == Clear && ClearedProperty(setup, p))
  }

  ghost predicate GroupNames(setup: Setup, key: string, g: Group, k: string, p: Property, a: Action) {
    NamesAt(setup, g, Affected(setup.source, key, g), k, p, a)
  }

  lemma BaseClearsName(setup: Setup, g: Group, several: bool, k: string, p: Property, a: Action)
    ensures Names(BaseClears(setup, g, several), k, p, a)
       <==> k == g.uuid && (g.subId != "" || several) && a == Clear && ClearedProperty(setup, p)
  {
    ClearsName(AllRowProperties(setup), [g.uuid], k, p, a);
    RowPropertiesOf(setup.columns, p);
    NothingNamed(k, p, a);
  }

  lemma IdentityNames(key: string, g: Group, k: string, p: Property, a: Action)
    ensures Names(Identity(key, g), k, p, a)
       <==> g.subId != "" && k == key && ((p == ItemUuid && a == Set(Txt(g.uuid))) || (p == SubId && a == Set(Txt(g.subId))))
  {
    var m, n := Mutation(Set(Txt(g.uuid)), ItemUuid, [key]), Mutation(Set(Txt(g.subId)), SubId, [key]);
    assert [m, n] == [m] + [n];
    NamesConcat([m], [n], k, p, a);
    NamesOne(m, k, p, a);
    NamesOne(n, k, p, a);
    NothingNamed(k, p, a);
  }

  lemma OccurrenceMutationsName(setup: Setup, g: Group, targets: seq<string>, k: string, p: Property, a: Action)
    ensures Names(OccurrenceMutations(setup, g, targets), k, p, a)
       <==> setup.withOccurrences && a == Set(Resolved(setup.env, setup.source, k, g)) && p == BookletOccurrences && k in targets
  {
    OccurrenceWritesName(setup.env, setup.source, g, targets, k, p, a);
    NothingNamed(k, p, a);
  }

  lemma FourNames(w: seq<Mutation>, x: seq<Mutation>, y: seq<Mutation>, z: seq<Mutation>, k: string, p: Property, a: Action)
    ensures Names(w + x + y + z, k, p, a) <==> Names(w, k, p, a) || Names(x, k, p, a) || Names(y, k, p, a) || Names(z, k, p, a)
  {
    NamesConcat(w + x + y, z, k, p, a);
    NamesConcat(w + x, y, k, p, a);
    NamesConcat(w, x, k, p, a);
  }

  /** The four parts together. */
  lemma FourParts(setup: Setup, key: string, g: Group, targets: seq<string>, k: string, p: Property, a: Action)
    requires g.subId != "" ==> targets == [key]
    ensures NamesAt(setup, g, targets, k, p, a) <==>
      || (k == g.uuid && (g.subId != "" || |targets| > 1) && a == Clear && ClearedProperty(setup, p))
      || (g.subId != "" && k == key && ((p == ItemUuid && a == Set(Txt(g.uuid))) || (p == SubId && a == Set(Txt(g.subId)))))
      || (a == SetOrClear(Values(g, p)) && RowScoped(p) && p in setup.columns.at && k in targets)
      || (setup.withOccurrences && a == Set(Resolved(setup.env, setup.source, k, g)) && p == BookletOccurrences && k in targets)
  {
  }

  lemma MutationsNameAt(setup: Setup, key: string, g: Group, targets: seq<string>, k: string, p: Property, a: Action)
    requires g.subId != "" ==> targets == [key]
    ensures Names(MutationsAt(setup, key, g, targets), k, p, a) <==> NamesAt(setup, g, targets, k, p, a)
  {
    var writes := Writes(RowProperties(setup.columns), g, targets);
    FourNames(BaseClears(setup, g, |targets| > 1), Identity(key, g), writes, OccurrenceMutations(setup, g, targets), k, p, a);
    BaseClearsName(setup, g, |targets| > 1, k, p, a);
    IdentityNames(key, g, k, p, a);
    WritesName(RowProperties(setup.columns), g, targets, k, p, a);
    RowPropertiesOf(setup.columns, p);
    OccurrenceMutationsName(setup, g, targets, k, p, a);
    FourParts(setup, key, g, targets, k, p, a);
  }

  lemma GroupMutationsName(setup: Setup, key: string, g: Group, k: string, p: Property, a: Action)
    ensures Names(GroupMutations(setup, key, g), k, p, a) <==> GroupNames(setup, key, g, k, p, a)
  {
    MutationsNameAt(setup, key, g, Affected(setup.source, key, g), k, p, a);
  }

  /** One more part of a phase. */
  lemma OnePartMore(rest: seq<Mutation>, own: seq<Mutation>, order: seq<string>, f: string -> bool, k: string, p: Property, a: Action)
    requires order != []
    requires Names(rest, k, p, a) <==> Any(order[..|order| - 1], f)
    requires Names(own, k, p, a) <==> f(order[|order| - 1])
    ensures Names(rest + own, k, p, a) <==> Any(order, f)
  {
    NamesConcat(rest, own, k, p, a);
    AnyOrLast(order, f);
  }

  ghost function NamingGroup(setup: Setup, groups: JsMap<string, Group>, k: string, p: Property, a: Action): string -> bool {
    key => groups.Has(key) && GroupNames(setup, key, groups.at[key], k, p, a)
  }

  lemma OwnMutationsName(setup: Setup, groups: JsMap<string, Group>, key: string, k: string, p: Property, a: Action)
    ensures Names(if groups.Has(key) then GroupMutations(setup, key, groups.at[key]) else [], k, p, a)
       <==> NamingGroup(setup, groups, k, p, a)(key)
  {
    NothingNamed(k, p, a);
    if groups.Has(key) { GroupMutationsName(setup, key, groups.at[key], k, p, a); }
  }

  lemma {:induction false} RowPhaseNames(setup: Setup, groups: JsMap<string, Group>, order: seq<string>, k: string, p: Property, a: Action)
    ensures Names(RowPhase(setup, groups, order), k, p, a) <==> Any(order, NamingGroup(setup, groups, k, p, a))
  {
    if order == [] {
      NothingNamed(k, p, a);
      AnyOfNone(NamingGroup(setup, groups, k, p, a));
    } else {
      var rest, last := order[..|order| - 1], order[|order| - 1];
      RowPhaseNames(setup, groups, rest, k, p, a);
      OwnMutationsName(setup, groups, last, k, p, a);
      OnePartMore(RowPhase(setup, groups, rest), if groups.Has(last) then GroupMutations(setup, last, groups.at[last]) else [],
                  order, NamingGroup(setup, groups, k, p, a), k, p, a);
    }
  }

  ghost predicate ItemNames(source: Table, uuid: string, q: Property, values: seq<Value>, k: string, p: Property, a: Action) {
    p == q && ((k == uuid && a == SetOrClear(values)) || (k in PartialKeys(source.order, uuid) && a == Clear))
  }

  lemma ItemMutationsName(source: Table, uuid: string, q: Property, values: seq<Value>, k: string, p: Property, a: Action)
    ensures Names(ItemMutations(source, uuid, q, values), k, p, a) <==> ItemNames(source, uuid, q, values, k, p, a)
  {
    var m, n := Mutation(SetOrClear(values), q, [uuid]), Mutation(Clear, q, PartialKeys(source.order, uuid));
    assert ItemMutations(source, uuid, q, values) == [m] + [n];
    NamesConcat([m], [n], k, p, a);
    NamesOne(m, k, p, a);
    NamesOne(n, k, p, a);
  }

  ghost function NamingItem(source: Table, q: Property, scoped: JsMap<string, seq<Value>>, k: string, p: Property, a: Action): string -> bool {
    u => scoped.Has(u) && ItemNames(source, u, q, scoped.at[u], k, p, a)
  }

  lemma OwnItemNames(source: Table, q: Property, scoped: JsMap<string, seq<Value>>, u: string, k: string, p: Property, a: Action)
    ensures Names(if scoped.Has(u) then ItemMutations(source, u, q, scoped.at[u]) else [], k, p, a) <==> NamingItem(source, q, scoped, k, p, a)(u)
  {
    NothingNamed(k, p, a);
    if scoped.Has(u) { ItemMutationsName(source, u, q, scoped.at[u], k, p, a); }
  }

  lemma {:induction false} ItemPhaseNames(source: Table, q: Property, scoped: JsMap<string, seq<Value>>, order: seq<string>, k: string, p: Property, a: Action)
    ensures Names(ItemPhase(source, q, scoped, order), k, p, a) <==> Any(order, NamingItem(source, q, scoped, k, p, a))
  {
    if order == [] {
      NothingNamed(k, p, a);
      AnyOfNone(NamingItem(source, q, scoped, k, p, a));
    } else {
      var rest, last := order[..|order| - 1], order[|order| - 1];
      ItemPhaseNames(source, q, scoped, rest, k, p, a);
      OwnItemNames(source, q, scoped, last, k, p, a);
      OnePartMore(ItemPhase(source, q, scoped, rest), if scoped.Has(last) then ItemMutations(source, last, q, scoped.at[last]) else [],
                  order, NamingItem(source, q, scoped, k, p, a), k, p, a);
    }
  }

  ghost function NamingUuid(source: Table, q: Property, values: seq<Value>, k: string, p: Property, a: Action): string -> bool {
    u => ItemNames(source, u, q, values, k, p, a)
  }

  lemma {:induction false} UnitMutationsName(source: Table, q: Property, values: seq<Value>, uuids: seq<string>, k: string, p: Property, a: Action)
    ensures Names(UnitMutations(source, q, values, uuids), k, p, a) <==> Any(uuids, NamingUuid(source, q, values, k, p, a))
  {
    if uuids == [] {
      NothingNamed(k, p, a);
      AnyOfNone(NamingUuid(source, q, values, k, p, a));
    } else {
      var rest, last := uuids[..|uuids| - 1], uuids[|uuids| - 1];
      UnitMutationsName(source, q, values, rest, k, p, a);
      ItemMutationsName(source, last, q, values, k, p, a);
      OnePartMore(UnitMutations(source, q, values, rest), ItemMutations(source, last, q, values), uuids, NamingUuid(source, q, values, k, p, a), k, p, a);
    }
  }

  ghost predicate UnitNames(source: Table, items: seq<Item>, c: string, q: Property, values: seq<Value>, k: string, p: Property, a: Action) {
    exists u :: u in UuidsOfUnit(items, c) && ItemNames(source, u, q, values, k, p, a)
  }

  lemma UnitMutationsNameUnit(source: Table, items: seq<Item>, c: string, q: Property, values: seq<Value>, k: string, p: Property, a: Action)
    ensures Names(UnitMutations(source, q, values, UuidsOfUnit(items, c)), k, p, a) <==> UnitNames(source, items, c, q, values, k, p, a)
  {
    var uuids, f := UuidsOfUnit(items, c), NamingUuid(source, q, values, k, p, a);
    UnitMutationsName(source, q, values, uuids, k, p, a);
    if Any(uuids, f) {
      var u :| u in uuids && f(u);
      assert u in UuidsOfUnit(items, c) && ItemNames(source, u, q, values, k, p, a);
    }
    if UnitNames(source, items, c, q, values, k, p, a) {
      var u :| u in UuidsOfUnit(items, c) && ItemNames(source, u, q, values, k, p, a);
      assert u in uuids && f(u);
    }
  }

  ghost function NamingUnit(source: Table, items: seq<Item>, q: Property, scoped: JsMap<string, seq<Value>>, k: string, p: Property, a: Action): string -> bool {
    c => scoped.Has(c) && UnitNames(source, items, c, q, scoped.at[c], k, p, a)
  }

  lemma OwnUnitNames(source: Table, items: seq<Item>, q: Property, scoped: JsMap<string, seq<Value>>, c: string, k: string, p: Property, a: Action)
    ensures Names(if scoped.Has(c) then UnitMutations(source, q, scoped.at[c], UuidsOfUnit(items, c)) else [], k, p, a)
       <==> NamingUnit(source, items, q, scoped, k, p, a)(c)
  {
    NothingNamed(k, p, a);
    if scoped.Has(c) { UnitMutationsNameUnit(source, items, c, q, scoped.at[c], k, p, a); }
  }

  lemma {:induction false} UnitPhaseNames(source: Table, items: seq<Item>, q: Property, scoped: JsMap<string, seq<Value>>, order: seq<string>, k: string, p: Property, a: Action)
    ensures Names(UnitPhase(source, items, q, scoped, order), k, p, a) <==> Any(order, NamingUnit(source, items, q, scoped, k, p, a))
  {
    if order == [] {
      NothingNamed(k, p, a);
      AnyOfNone(NamingUnit(source, items, q, scoped, k, p, a));
    } else {
      var rest, last := order[..|order| - 1], order[|order| - 1];
      UnitPhaseNames(source, items, q, scoped, rest, k, p, a);
      OwnUnitNames(source, items, q, scoped, last, k, p, a);
      OnePartMore(UnitPhase(source, items, q, scoped, rest),
                  if scoped.Has(last) then UnitMutations(source, q, scoped.at[last], UuidsOfUnit(items, last)) else [],
                  order, NamingUnit(source, items, q, scoped, k, p, a), k, p, a);
    }
  }

  lemma {:induction false} KeepsNameNothing(columns: Columns, ps: seq<Property>, k: string, p: Property, a: Action)
    ensures !Names(Keeps(columns, ps), k, p, a)
  {
    if ps != [] {
      var n := |ps| - 1;
      var own: seq<Mutation> := if ps[n] in columns.at then [] else [Mutation(Keep, ps[n], [])];
      KeepsNameNothing(columns, ps[..n], k, p, a);
      NamesConcat(Keeps(columns, ps[..n]), own, k, p, a);
      NamesOne(Mutation(Keep, ps[n], []), k, p, a);
    }
  }

  // ------------------------------------------------------------------ what the whole plan names

  ghost predicate RowsName(setup: Setup, groups: JsMap<string, Group>, k: string, p: Property, a: Action) {
    exists key :: groups.Has(key) && GroupNames(setup, key, groups.at[key], k, p, a)
  }

  ghost predicate ItemsName(source: Table, q: Property, scoped: JsMap<string, seq<Value>>, k: string, p: Property, a: Action) {
    exists u :: scoped.Has(u) && ItemNames(source, u, q, scoped.at[u], k, p, a)
  }

  ghost predicate UnitsName(setup: Setup, q: Property, scoped: JsMap<string, seq<Value>>, k: string, p: Property, a: Action) {
    exists c :: scoped.Has(c) && UnitNames(setup.source, setup.items, c, q, scoped.at[c], k, p, a)
  }

  ghost predicate PlanNames(setup: Setup, groups: JsMap<string, Group>, k: string, p: Property, a: Action) {
    || RowsName(setup, groups, k, p, a)
    || ItemsName(setup.source, ItemTimeSeconds, ScopedValues(setup, groups, ItemTimeSeconds, false), k, p, a)
    || ItemsName(setup.source, CompetenceLevel, ScopedValues(setup, groups, CompetenceLevel, false), k, p, a)
    || UnitsName(setup, StimulusTimeSeconds, ScopedValues(setup, groups, StimulusTimeSeconds, true), k, p, a)
  }

  lemma {:induction false} ScopedValid(groups: JsMap<string, Group>, order: seq<string>, p: Property, unit: bool)
    ensures Scoped(groups, order, p, unit).Valid()
  {
    if order != [] { ScopedValid(groups, order[..|order| - 1], p, unit); }
  }

  lemma AnyMember<V>(m: JsMap<string, V>, f: string -> bool)
    requires m.Valid()
    ensures Any(m.order, f) <==> exists k :: m.Has(k) && f(k)
  {
  }

  lemma SomeItemNames(source: Table, q: Property, scoped: JsMap<string, seq<Value>>, k: string, p: Property, a: Action)
    requires scoped.Valid()
    ensures Any(scoped.order, NamingItem(source, q, scoped, k, p, a)) <==> ItemsName(source, q, scoped, k, p, a)
  {
    var f := NamingItem(source, q, scoped, k, p, a);
    if Any(scoped.order, f) {
      var u :| u in scoped.order && f(u);
      assert scoped.Has(u) && ItemNames(source, u, q, scoped.at[u], k, p, a);
    }
    if ItemsName(source, q, scoped, k, p, a) {
      var u :| scoped.Has(u) && ItemNames(source, u, q, scoped.at[u], k, p, a);
      assert u in scoped.order && f(u);
    }
  }

  lemma UnitNamesOnce(setup: Setup, q: Property, scoped: JsMap<string, seq<Value>>, c: string, k: string, p: Property, a: Action)
    requires scoped.Has(c) && UnitNames(setup.source, setup.items, c, q, scoped.at[c], k, p, a)
    ensures UnitsName(setup, q, scoped, k, p, a)
  {
  }

  lemma SomeUnitNames(setup: Setup, q: Property, scoped: JsMap<string, seq<Value>>, k: string, p: Property, a: Action)
    requires scoped.Valid()
    ensures Any(scoped.order, NamingUnit(setup.source, setup.items, q, scoped, k, p, a)) <==> UnitsName(setup, q, scoped, k, p, a)
  {
    var f := NamingUnit(setup.source, setup.items, q, scoped, k, p, a);
    if Any(scoped.order, f) {
      var c :| c in scoped.order && f(c);
      UnitNamesOnce(setup, q, scoped, c, k, p, a);
    }
    if UnitsName(setup, q, scoped, k, p, a) {
      var c :| scoped.Has(c) && UnitNames(setup.source, setup.items, c, q, scoped.at[c], k, p, a);
      assert c in scoped.order && f(c);
    }
  }

  lemma ItemPhaseIs(setup: Setup, groups: JsMap<string, Group>, q: Property, k: string, p: Property, a: Action)
    ensures var scoped := ScopedValues(setup, groups, q, false);
      Names(ItemPhase(setup.source, q, scoped, scoped.order), k, p, a) <==> ItemsName(setup.source, q, scoped, k, p, a)
  {
    var scoped := ScopedValues(setup, groups, q, false);
    ScopedValid(groups, groups.order, q, false);
    ItemPhaseNames(setup.source, q, scoped, scoped.order, k, p, a);
    SomeItemNames(setup.source, q, scoped, k, p, a);
  }

  lemma UnitPhaseIs(setup: Setup, groups: JsMap<string, Group>, q: Property, k: string, p: Property, a: Action)
    ensures var scoped := ScopedValues(setup, groups, q, true);
      Names(UnitPhase(setup.source, setup.items, q, scoped, scoped.order), k, p, a) <==> UnitsName(setup, q, scoped, k, p, a)
  {
    var scoped := ScopedValues(setup, groups, q, true);
    ScopedValid(groups, groups.order, q, true);
    UnitPhaseNames(setup.source, setup.items, q, scoped, scoped.order, k, p, a);
    SomeUnitNames(setup, q, scoped, k, p, a);
  }

  lemma RowPhaseIs(setup: Setup, groups: JsMap<string, Group>, k: string, p: Property, a: Action)
    requires groups.Valid()
    ensures Names(RowPhase(setup, groups, groups.order), k, p, a) <==> RowsName(setup, groups, k, p, a)
  {
    RowPhaseNames(setup, groups, groups.order, k, p, a);
    AnyMember(groups, NamingGroup(setup, groups, k, p, a));
  }

  /** What is kept is not named. */
  lemma KeptIsNotNamed(setup: Setup, k: string, p: Property, a: Action)
    ensures !Names(Keeps(setup.columns, SCALARS + TEXTS) + (if setup.withOccurrences then [] else [Mutation(Keep, BookletOccurrences, [])]), k, p, a)
  {
    var kept: seq<Mutation> := if setup.withOccurrences then [] else [Mutation(Keep, BookletOccurrences, [])];
    NamesConcat(Keeps(setup.columns, SCALARS + TEXTS), kept, k, p, a);
    NamesOne(Mutation(Keep, BookletOccurrences, []), k, p, a);
    KeepsNameNothing(setup.columns, SCALARS + TEXTS, k, p, a);
    NothingNamed(k, p, a);
  }

  lemma FiveNames(v: seq<Mutation>, w: seq<Mutation>, x: seq<Mutation>, y: seq<Mutation>, z: seq<Mutation>, k: string, p: Property, a: Action)
    ensures Names(v + w + x + y + z, k, p, a)
       <==> Names(v, k, p, a) || Names(w, k, p, a) || Names(x, k, p, a) || Names(y, k, p, a) || Names(z, k, p, a)
  {
    NamesConcat(v + w + x + y, z, k, p, a);
    FourNames(v, w, x, y, k, p, a);
  }

  lemma AllMutationsName(setup: Setup, groups: JsMap<string, Group>, k: string, p: Property, a: Action)
    requires groups.Valid()
    ensures Names(AllMutations(setup, groups), k, p, a) <==> PlanNames(setup, groups, k, p, a)
  {
    var times, levels, stimuli := ScopedValues(setup, groups, ItemTimeSeconds, false), ScopedValues(setup, groups, CompetenceLevel, false), ScopedValues(setup, groups, StimulusTimeSeconds, true);
    FiveNames(Keeps(setup.columns, SCALARS + TEXTS) + (if setup.withOccurrences then [] else [Mutation(Keep, BookletOccurrences, [])]),
              RowPhase(setup, groups, groups.order),
              ItemPhase(setup.source, ItemTimeSeconds, times, times.order),
              ItemPhase(setup.source, CompetenceLevel, levels, levels.order),
              UnitPhase(setup.source, setup.items, StimulusTimeSeconds, stimuli, stimuli.order), k, p, a);
    KeptIsNotNamed(setup, k, p, a);
    RowPhaseIs(setup, groups, k, p, a);
    ItemPhaseIs(setup, groups, ItemTimeSeconds, k, p, a);
    ItemPhaseIs(setup, groups, CompetenceLevel, k, p, a);
    UnitPhaseIs(setup, groups, StimulusTimeSeconds, k, p, a);
  }

  // ------------------------------------------------------ each cell is named with one action

  /** No uuid of the catalogue is a row key of another item, and each stands for one unit. */
  ghost predicate ItemsOk(items: seq<Item>) {
    forall i, j :: i in items && j in items ==> Apart(i.uuid, j.uuid) && (i.uuid == j.uuid ==> i.unitId == j.unitId)
  }

  ghost predicate Listed(items: seq<Item>, uuid: string) { exists i :: i in items && i.uuid == uuid }

  ghost predicate GroupOk(items: seq<Item>, key: string, g: Group) {
    && Trimmed(g.subId) && key == BuildItemRowKey(g.uuid, g.subId)
    && exists i :: i in items && i.uuid == g.uuid && i.unitId == g.unitId
  }

  /** Groups of items of the catalogue, each item in one form only. */
  ghost predicate GroupsOk(items: seq<Item>, groups: JsMap<string, Group>) {
    && groups.Valid()
    && (forall k :: groups.Has(k) ==> GroupOk(items, k, groups.at[k]))
    && (forall k, l :: groups.Has(k) && groups.Has(l) && groups.at[k].uuid == groups.at[l].uuid
          ==> (groups.at[k].subId == "" <==> groups.at[l].subId == ""))
  }

  lemma ListedApart(items: seq<Item>, u: string, v: string)
    requires ItemsOk(items) && Listed(items, u) && Listed(items, v)
    ensures Apart(u, v)
  {
    var i :| i in items && i.uuid == u;
    var j :| j in items && j.uuid == v;
  }

  lemma GroupListed(items: seq<Item>, groups: JsMap<string, Group>, key: string)
    requires GroupsOk(items, groups) && groups.Has(key)
    ensures Listed(items, groups.at[key].uuid) && GroupOk(items, key, groups.at[key])
  {
    assert GroupOk(items, key, groups.at[key]);
  }

  /** A key under which something of the item is stored. */
  ghost predicate Touches(k: string, u: string) {
    k == u || UuidOf(k) == Some(u) || exists s :: Trimmed(s) && k == BuildItemRowKey(u, s)
  }

  lemma TouchesOne(k: string, u: string, v: string)
    requires Apart(u, v) && Touches(k, u) && Touches(k, v)
    ensures u == v
  {
    if k == u {
      TouchesRaw(u, v);
    } else if k == v {
      TouchesRaw(v, u);
    } else if UuidOf(k) == Some(u) {
      if UuidOf(k) != Some(v) {
        var t :| Trimmed(t) && k == BuildItemRowKey(v, t);
        RowOwner(v, t, u);
      }
    } else {
      var s :| Trimmed(s) && k == BuildItemRowKey(u, s);
      TouchesRow(u, s, v);
    }
  }

  lemma TouchesRaw(u: string, v: string)
    requires Apart(u, v) && Touches(u, v)
    ensures u == v
  {
    RawOwner(u, v);
    if u != v {
      var t :| Trimmed(t) && u == BuildItemRowKey(v, t);
      RawKey(v, t, u);
    }
  }

  lemma TouchesRow(u: string, s: string, v: string)
    requires Apart(u, v) && Trimmed(s) && Touches(BuildItemRowKey(u, s), v)
    ensures u == v
  {
    var k := BuildItemRowKey(u, s);
    if k == v {
      RawKey(u, s, v);
    } else if UuidOf(k) == Some(v) {
      RowOwner(u, s, v);
    } else {
      var t :| Trimmed(t) && k == BuildItemRowKey(v, t);
      KeyDetermines(u, s, v, t);
    }
  }

  /** A group is written to rows of its item, and not to the base entry that it clears. */
  lemma AffectedOwner(source: Table, key: string, g: Group, k: string)
    requires Trimmed(g.subId) && key == BuildItemRowKey(g.uuid, g.subId)
    ensures k in Affected(source, key, g) ==> Touches(k, g.uuid)
    ensures (g.subId != "" || |Affected(source, key, g)| > 1) ==> g.uuid !in Affected(source, key, g)
  {
    PartialKeysOf(source.order, g.uuid, k);
    PartialKeysOf(source.order, g.uuid, g.uuid);
    SelfApart(g.uuid);
    RawOwner(g.uuid, g.uuid);
    if key == g.uuid { RawKey(g.uuid, g.subId, g.uuid); }
  }

  lemma NamedTouches(setup: Setup, key: string, g: Group, k: string, p: Property, a: Action)
    requires Trimmed(g.subId) && key == BuildItemRowKey(g.uuid, g.subId) && GroupNames(setup, key, g, k, p, a)
    ensures Touches(k, g.uuid)
  {
    AffectedOwner(setup.source, key, g, k);
  }

  /** A group with a sub id names its row and the base entry of its item. */
  lemma NamedByRow(setup: Setup, key: string, g: Group, k: string, p: Property, a: Action)
    requires GroupNames(setup, key, g, k, p, a) && g.subId != ""
    ensures k == key || (k == g.uuid && a == Clear)
  {
  }

  lemma NamedOnce(setup: Setup, key: string, g: Group, k: string, p: Property, a: Action, b: Action)
    requires Trimmed(g.subId) && key == BuildItemRowKey(g.uuid, g.subId)
    requires GroupNames(setup, key, g, k, p, a) && GroupNames(setup, key, g, k, p, b)
    ensures a == b
  {
    AffectedOwner(setup.source, key, g, k);
  }

  /** Two groups that name the same cell say the same. */
  lemma RowsAgree(setup: Setup, groups: JsMap<string, Group>, key1: string, key2: string, k: string, p: Property, a: Action, b: Action)
    requires ItemsOk(setup.items) && GroupsOk(setup.items, groups) && groups.Has(key1) && groups.Has(key2)
    requires GroupNames(setup, key1, groups.at[key1], k, p, a) && GroupNames(setup, key2, groups.at[key2], k, p, b)
    ensures a == b
  {
    var g, h := groups.at[key1], groups.at[key2];
    GroupListed(setup.items, groups, key1);
    GroupListed(setup.items, groups, key2);
    ListedApart(setup.items, g.uuid, h.uuid);
    NamedTouches(setup, key1, g, k, p, a);
    NamedTouches(setup, key2, h, k, p, b);
    TouchesOne(k, g.uuid, h.uuid);
    if key1 == key2 {
      NamedOnce(setup, key1, g, k, p, a, b);
    } else {
      assert g.subId != "" && h.subId != "";
      NamedByRow(setup, key1, g, k, p, a);
      NamedByRow(setup, key2, h, k, p, b);
      SelfApart(g.uuid);
      if key1 == g.uuid { RawKey(g.uuid, g.subId, g.uuid); }
      if key2 == g.uuid { RawKey(g.uuid, h.subId, g.uuid); }
    }
  }

  lemma ItemsAgree(source: Table, u: string, v: string, q: Property, values: seq<Value>, others: seq<Value>, k: string, p: Property, a: Action, b: Action)
    requires Apart(u, v) && (u == v ==> values == others)
    requires ItemNames(source, u, q, values, k, p, a) && ItemNames(source, v, q, others, k, p, b)
    ensures u == v && a == b
  {
    PartialKeysOf(source.order, u, k);
    PartialKeysOf(source.order, v, k);
    TouchesOne(k, u, v);
    SelfApart(u);
    RawOwner(u, u);
  }

  // ------------------------------------------------------------------------------- scopes

  ghost predicate InScope(groups: JsMap<string, Group>, key: string, unit: bool, c: string) {
    groups.Has(key) && ScopeOf(groups.at[key], unit) == c
  }

  ghost predicate Contributes(groups: JsMap<string, Group>, key: string, p: Property, unit: bool, c: string, x: Value) {
    InScope(groups, key, unit, c) && Values(groups.at[key], p) != [] && Values(groups.at[key], p)[0] == x
  }

  ghost function GroupInScope(groups: JsMap<string, Group>, unit: bool, c: string): string -> bool {
    key => InScope(groups, key, unit, c)
  }

  ghost function Contributor(groups: JsMap<string, Group>, p: Property, unit: bool, c: string, x: Value): string -> bool {
    key => Contributes(groups, key, p, unit, c, x)
  }

  lemma {:induction false} ScopedHas(groups: JsMap<string, Group>, order: seq<string>, p: Property, unit: bool, c: string)
    ensures Scoped(groups, order, p, unit).Has(c) <==> Any(order, GroupInScope(groups, unit, c))
  {
    if order == [] {
      AnyOfNone(GroupInScope(groups, unit, c));
    } else {
      ScopedHas(groups, order[..|order| - 1], p, unit, c);
      AnyOrLast(order, GroupInScope(groups, unit, c));
    }
  }

  /** The values collected in a scope, none if the scope is absent. */
  function ScopeValues(scoped: JsMap<string, seq<Value>>, c: string): seq<Value> {
    if scoped.Has(c) then scoped.at[c] else []
  }

  lemma ScopePut(rest: JsMap<string, seq<Value>>, d: string, values: seq<Value>, c: string)
    ensures ScopeValues(rest.Put(d, values), c) == if c == d then values else ScopeValues(rest, c)
  {
  }

  lemma ScopedStep(groups: JsMap<string, Group>, order: seq<string>, p: Property, unit: bool, c: string, x: Value)
    requires order != []
    ensures x in ScopeValues(Scoped(groups, order, p, unit), c) <==>
      || x in ScopeValues(Scoped(groups, order[..|order| - 1], p, unit), c)
      || Contributes(groups, order[|order| - 1], p, unit, c, x)
  {
    var rest, key := Scoped(groups, order[..|order| - 1], p, unit), order[|order| - 1];
    if groups.Has(key) {
      var values, d := Values(groups.at[key], p), ScopeOf(groups.at[key], unit);
      var now := if values == [] then ScopeValues(rest, d) else Add(ScopeValues(rest, d), values[0]);
      assert Scoped(groups, order, p, unit) == rest.Put(d, now);
      ScopePut(rest, d, now, c);
      AddedValue(ScopeValues(rest, d), values, x);
    }
  }

  lemma AddedValue(earlier: seq<Value>, values: seq<Value>, x: Value)
    ensures x in (if values == [] then earlier else Add(earlier, values[0])) <==> x in earlier || (values != [] && values[0] == x)
  {
  }

  lemma {:induction false} ScopedMember(groups: JsMap<string, Group>, order: seq<string>, p: Property, unit: bool, c: string, x: Value)
    ensures x in ScopeValues(Scoped(groups, order, p, unit), c) <==> Any(order, Contributor(groups, p, unit, c, x))
  {
    if order == [] {
      AnyOfNone(Contributor(groups, p, unit, c, x));
    } else {
      ScopedMember(groups, order[..|order| - 1], p, unit, c, x);
      ScopedStep(groups, order, p, unit, c, x);
      AnyOrLast(order, Contributor(groups, p, unit, c, x));
    }
  }

  lemma ScopedIs(setup: Setup, groups: JsMap<string, Group>, p: Property, unit: bool, c: string, x: Value)
    requires groups.Valid() && p in setup.columns.at
    ensures var scoped := ScopedValues(setup, groups, p, unit);
      && (scoped.Has(c) <==> exists key :: InScope(groups, key, unit, c))
      && (scoped.Has(c) ==> (x in scoped.at[c] <==> exists key :: Contributes(groups, key, p, unit, c, x)))
  {
    ScopedHas(groups, groups.order, p, unit, c);
    ScopedMember(groups, groups.order, p, unit, c, x);
    AnyMember(groups, GroupInScope(groups, unit, c));
    AnyMember(groups, Contributor(groups, p, unit, c, x));
  }

  lemma ScopeIsListed(setup: Setup, groups: JsMap<string, Group>, p: Property, u: string)
    requires GroupsOk(setup.items, groups) && ScopedValues(setup, groups, p, false).Has(u)
    ensures Listed(setup.items, u)
  {
    ScopedIs(setup, groups, p, false, u, Null);
    var key :| InScope(groups, key, false, u);
    GroupListed(setup.items, groups, key);
  }

  lemma {:induction false} UuidsOfUnitAre(items: seq<Item>, c: string, u: string)
    ensures u in UuidsOfUnit(items, c) <==> exists i :: i in items && i.unitId == c && i.uuid == u
  {
    if items != [] {
      var rest, last := items[..|items| - 1], items[|items| - 1];
      UuidsOfUnitAre(rest, c, u);
      assert forall i :: i in items <==> i in rest || i == last by { assert items == rest + [last]; }
    }
  }

  // -------------------------------------------------------------------- the plan is coherent

  lemma OwnProperties(setup: Setup, groups: JsMap<string, Group>, k: string, p: Property, a: Action)
    requires PlanNames(setup, groups, k, p, a)
    ensures RowPhaseProperty(p) <==> RowsName(setup, groups, k, p, a)
    ensures p == ItemTimeSeconds <==> ItemsName(setup.source, ItemTimeSeconds, ScopedValues(setup, groups, ItemTimeSeconds, false), k, p, a)
    ensures p == CompetenceLevel <==> ItemsName(setup.source, CompetenceLevel, ScopedValues(setup, groups, CompetenceLevel, false), k, p, a)
    ensures p == StimulusTimeSeconds <==> UnitsName(setup, StimulusTimeSeconds, ScopedValues(setup, groups, StimulusTimeSeconds, true), k, p, a)
    ensures RowPhaseProperty(p) || p == ItemTimeSeconds || p == CompetenceLevel || p == StimulusTimeSeconds
    ensures !a.Keep?
  {
  }

  lemma UnitsAgree(setup: Setup, groups: JsMap<string, Group>, c: string, d: string, k: string, p: Property, a: Action, b: Action)
    requires ItemsOk(setup.items) && GroupsOk(setup.items, groups)
    requires var scoped := ScopedValues(setup, groups, StimulusTimeSeconds, true);
      && scoped.Has(c) && UnitNames(setup.source, setup.items, c, StimulusTimeSeconds, scoped.at[c], k, p, a)
      && scoped.Has(d) && UnitNames(setup.source, setup.items, d, StimulusTimeSeconds, scoped.at[d], k, p, b)
    ensures a == b
  {
    var scoped := ScopedValues(setup, groups, StimulusTimeSeconds, true);
    var u :| u in UuidsOfUnit(setup.items, c) && ItemNames(setup.source, u, StimulusTimeSeconds, scoped.at[c], k, p, a);
    var v :| v in UuidsOfUnit(setup.items, d) && ItemNames(setup.source, v, StimulusTimeSeconds, scoped.at[d], k, p, b);
    UuidsOfUnitAre(setup.items, c, u);
    UuidsOfUnitAre(setup.items, d, v);
    ListedApart(setup.items, u, v);
    ItemsAgree(setup.source, u, v, StimulusTimeSeconds, scoped.at[c], scoped.at[d], k, p, a, b);
  }

  /** All mutations of a plan that name a cell agree on it. */
  lemma PlanIsCoherent(setup: Setup, groups: JsMap<string, Group>, k: string, p: Property, a: Action, b: Action)
    requires ItemsOk(setup.items) && GroupsOk(setup.items, groups)
    requires PlanNames(setup, groups, k, p, a) && PlanNames(setup, groups, k, p, b)
    ensures a == b
  {
    OwnProperties(setup, groups, k, p, a);
    OwnProperties(setup, groups, k, p, b);
    if RowPhaseProperty(p) {
      var key1 :| groups.Has(key1) && GroupNames(setup, key1, groups.at[key1], k, p, a);
      var key2 :| groups.Has(key2) && GroupNames(setup, key2, groups.at[key2], k, p, b);
      RowsAgree(setup, groups, key1, key2, k, p, a, b);
    } else if p == StimulusTimeSeconds {
      var scoped := ScopedValues(setup, groups, StimulusTimeSeconds, true);
      var c :| scoped.Has(c) && UnitNames(setup.source, setup.items, c, StimulusTimeSeconds, scoped.at[c], k, p, a);
      var d :| scoped.Has(d) && UnitNames(setup.source, setup.items, d, StimulusTimeSeconds, scoped.at[d], k, p, b);
      UnitsAgree(setup, groups, c, d, k, p, a, b);
    } else {
      var scoped := ScopedValues(setup, groups, p, false);
      var u :| scoped.Has(u) && ItemNames(setup.source, u, p, scoped.at[u], k, p, a);
      var v :| scoped.Has(v) && ItemNames(setup.source, v, p, scoped.at[v], k, p, b);
      ScopeIsListed(setup, groups, p, u);
      ScopeIsListed(setup, groups, p, v);
      ListedApart(setup.items, u, v);
      ItemsAgree(setup.source, u, v, p, scoped.at[u], scoped.at[v], k, p, a, b);
    }
  }

  /** What a plan makes of a cell. */
  lemma CellAfter(setup: Setup, groups: JsMap<string, Group>, k: string, p: Property, a: Action)
    requires ItemsOk(setup.items) && GroupsOk(setup.items, groups) && PlanNames(setup, groups, k, p, a)
    ensures CellOf(Applied(setup.source, AllMutations(setup, groups)), k, p) == Outcome(a, None)
  {
    var ms := AllMutations(setup, groups);
    OwnProperties(setup, groups, k, p, a);
    forall b ensures Names(ms, k, p, b) ==> b == a {
      AllMutationsName(setup, groups, k, p, b);
      if Names(ms, k, p, b) { PlanIsCoherent(setup, groups, k, p, a, b); }
    }
    AllMutationsName(setup, groups, k, p, a);
    AppliedCell(setup.source, ms, k, p, a);
  }

  /** A cell that the plan does not name stays as it is. */
  lemma UnnamedCellsStay(setup: Setup, groups: JsMap<string, Group>, k: string, p: Property)
    requires groups.Valid() && forall a :: !PlanNames(setup, groups, k, p, a)
    ensures CellOf(Applied(setup.source, AllMutations(setup, groups)), k, p) == CellOf(setup.source, k, p)
  {
    var ms := AllMutations(setup, groups);
    forall b ensures !Names(ms, k, p, b) { AllMutationsName(setup, groups, k, p, b); }
    AppliedCell(setup.source, ms, k, p, Clear);
  }

  /** A property without a column changes nowhere. */
  lemma AbsentColumnsChangeNothing(setup: Setup, groups: JsMap<string, Group>, k: string, p: Property)
    requires groups.Valid() && p !in setup.columns.at && (p == BookletOccurrences ==> !setup.withOccurrences) && p != ItemUuid && p != SubId
    ensures CellOf(Applied(setup.source, AllMutations(setup, groups)), k, p) == CellOf(setup.source, k, p)
  {
    assert forall a :: !PlanNames(setup, groups, k, p, a);
    UnnamedCellsStay(setup, groups, k, p);
  }
}
