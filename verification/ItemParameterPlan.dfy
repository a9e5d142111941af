/** backend/src/items/item-parameter-import.pipeline.ts: the plan that is made of the groups, its
    application, and what an import leaves behind. */
module ItemParameterPlan {
  import opened ItemParameterImport
  import opened ItemRowKey
  import opened JsMaps
  import opened Outcomes
  import opened Sorting
  import opened Text

  // ---------------------------------------------------------------------- members of a list

  ghost predicate Any(order: seq<string>, f: string -> bool) { exists x :: x in order && f(x) }

  lemma AnyOfNone(f: string -> bool)
    ensures !Any([], f)
  {
  }

  lemma AnyOrLast(order: seq<string>, f: string -> bool)
    requires order != []
    ensures Any(order, f) <==> Any(order[..|order| - 1], f) || f(order[|order| - 1])
  {
    var rest, last := order[..|order| - 1], order[|order| - 1];
    assert order == rest + [last];
    if Any(rest, f) {
      var x :| x in rest && f(x);
      assert x in order;
    }
    if f(last) { assert last in order; }
    if x :| x in order && f(x) {
      assert x in rest || x == last;
    }
  }

  // -------------------------------------------------------------------------------- keys

  /** The item a partial row belongs to. */
  function UuidOf(key: string): Option<string> {
    match ParseItemRowKeyParts(key)
    case None => None
    case Some(parts) => Some(parts.itemUuid)
  }

  predicate GoodUuid(u: string) { Trimmed(u) && Separable(u) }

  /** Two uuids of which neither is, but for white space, the other one or a row key of it. */
  ghost predicate Apart(u: string, v: string) {
    && (Trim(u) == Trim(v) ==> u == v)
    && (forall s :: Trimmed(s) && s != "" ==> BuildItemRowKey(u, s) != Trim(v) && BuildItemRowKey(v, s) != Trim(u))
  }

  lemma SelfApart(u: string)
    ensures Apart(u, u)
  {
    forall s | Trimmed(s) && s != "" ensures BuildItemRowKey(u, s) != Trim(u) {
      TrimFixpoint(s);
      assert |BuildItemRowKey(u, s)| > |Trim(u)|;
    }
  }

  /** Trimmed uuids without a separator are apart. */
  lemma GoodUuidsAreApart(u: string, v: string)
    requires GoodUuid(u) && GoodUuid(v)
    ensures Apart(u, v)
  {
    TrimFixpoint(u);
    TrimFixpoint(v);
    forall s | Trimmed(s) && s != "" ensures BuildItemRowKey(u, s) != v && BuildItemRowKey(v, s) != u {
      TrimFixpoint(s);
      SeparatorOf(u, Encode(s));
      SeparatorOf(v, Encode(s));
    }
  }

  lemma KeyDetermines(u: string, s: string, v: string, t: string)
    requires Apart(u, v) && Trimmed(s) && Trimmed(t)
    requires BuildItemRowKey(u, s) == BuildItemRowKey(v, t)
    ensures u == v && s == t
  {
    KeysCollideExactly(u, s, v, t);
  }

  /** A uuid is no row key but its own. */
  lemma RawKey(u: string, s: string, v: string)
    requires Apart(u, v) && Trimmed(s) && BuildItemRowKey(u, s) == v
    ensures u == v && s == ""
  {
    BuiltKeysAreTrimmed(u, s);
    TrimFixpoint(v);
    TrimFixpoint(s);
  }

  lemma OwnedKey(k: string, v: string) returns (t: string)
    requires UuidOf(k) == Some(v)
    ensures Trimmed(t) && t != "" && BuildItemRowKey(v, t) == Trim(k) && GoodUuid(v)
  {
    AcceptedKeysAreCanonical(k, k);
    t := ParseItemRowKeyParts(k).value.subId;
  }

  /** The rows of one item are not taken for rows of another one. */
  lemma RowOwner(u: string, s: string, v: string)
    requires Apart(u, v) && Trimmed(s) && UuidOf(BuildItemRowKey(u, s)) == Some(v)
    ensures u == v && s != ""
  {
    var t := OwnedKey(BuildItemRowKey(u, s), v);
    BuiltKeysAreTrimmed(u, s);
    TrimFixpoint(BuildItemRowKey(u, s));
    KeyDetermines(u, s, v, t);
  }

  lemma RawOwner(u: string, v: string)
    requires Apart(u, v)
    ensures UuidOf(u) != Some(v)
  {
    if UuidOf(u) == Some(v) { var t := OwnedKey(u, v); }
  }

  /** A row with a sub id is recognised as a row of its item exactly if the uuid is trimmed and can
      be told from what follows it. */
  lemma RecognisedExactly(u: string, s: string)
    requires Trimmed(s) && s != ""
    ensures UuidOf(BuildItemRowKey(u, s)) == Some(u) <==> GoodUuid(u)
  {
    if UuidOf(BuildItemRowKey(u, s)) == Some(u) { var t := OwnedKey(BuildItemRowKey(u, s), u); }
    TrimFixpoint(u);
    TrimFixpoint(s);
    RowKeyRoundTrip(u, s);
  }

  // --------------------------------------------------------------------------- mutations

  datatype Action = Keep | Set(value: Value) | Clear

  datatype Mutation = Mutation(action: Action, property: Property, targets: seq<string>)

  /** `getPartialCreditRowKeys` */
  function PartialKeys(order: seq<string>, uuid: string): seq<string> {
    if order == [] then []
    else PartialKeys(order[..|order| - 1], uuid) + if UuidOf(order[|order| - 1]) == Some(uuid) then [order[|order| - 1]] else []
  }

  lemma {:induction false} PartialKeysOf(order: seq<string>, uuid: string, k: string)
    ensures k in PartialKeys(order, uuid) <==> k in order && UuidOf(k) == Some(uuid)
  {
    if order != [] {
      PartialKeysOf(order[..|order| - 1], uuid, k);
      assert order == order[..|order| - 1] + [order[|order| - 1]];
    }
  }

  /** The rows a group is written to: its own, or all partial rows of an item named as a whole. */
  function Affected(source: Table, key: string, g: Group): seq<string> {
    var partial := PartialKeys(source.order, g.uuid);
    if g.subId == "" && partial != [] then partial else [key]
  }

  function CellOf(t: Table, k: string, p: Property): Option<Value> {
    if k in t.at && p in t.at[k] then Some(t.at[k][p]) else None
  }

  function SetOrClear(values: seq<Value>): Action {
    if values != [] then Set(values[0]) else Clear
  }

  // ------------------------------------------------------------------------ occurrences

  function SameBooklet(existing: seq<Occurrence>, booklet: string): seq<Occurrence> {
    if existing == [] then []
    else SameBooklet(existing[..|existing| - 1], booklet) + if existing[|existing| - 1].booklet == booklet then [existing[|existing| - 1]] else []
  }

  /** An occurrence without a position takes over the positions that are known. */
  function WithKnownPositions(imported: seq<Occurrence>, existing: seq<Occurrence>): seq<Occurrence> {
    if imported == [] then []
    else
      var o := imported[|imported| - 1];
      WithKnownPositions(imported[..|imported| - 1], existing) +
      if o.position.Some? || SameBooklet(existing, o.booklet) == [] then [o] else SameBooklet(existing, o.booklet)
  }

  function Known(source: Table, target: string, uuid: string): Value {
    var own := CellOf(source, target, BookletOccurrences);
    if own.Some? && own.value != Null then own.value
    else
      match CellOf(source, uuid, BookletOccurrences)
      case None => Null
      case Some(v) => v
  }

  function Resolved(env: Env, source: Table, target: string, g: Group): Value {
    var le := OccurrenceLe(env);
    Occs(Sort(WithKnownPositions(Sort(g.occurrences, le), Sort(env.occurrencesIn(Known(source, target, g.uuid)), le)), le))
  }

  // ------------------------------------------------------------------- the mutations of a group

  function RowProperties(columns: Columns): seq<Property> {
    OnlyRowScoped(Imported(columns, SCALARS)) + OnlyRowScoped(Imported(columns, TEXTS))
  }

  function OnlyRowScoped(ps: seq<Property>): seq<Property> {
    if ps == [] then []
    else OnlyRowScoped(ps[..|ps| - 1]) + if RowScoped(ps[|ps| - 1]) then [ps[|ps| - 1]] else []
  }

  function Clears(ps: seq<Property>, targets: seq<string>): seq<Mutation> {
    if ps == [] then [] else Clears(ps[..|ps| - 1], targets) + [Mutation(Clear, ps[|ps| - 1], targets)]
  }

  function Writes(ps: seq<Property>, g: Group, targets: seq<string>): seq<Mutation> {
    if ps == [] then []
    else Writes(ps[..|ps| - 1], g, targets) + [Mutation(SetOrClear(Values(g, ps[|ps| - 1])), ps[|ps| - 1], targets)]
  }

  function OccurrenceWrites(env: Env, source: Table, g: Group, targets: seq<string>): seq<Mutation> {
    if targets == [] then []
    else
      var k := targets[|targets| - 1];
      OccurrenceWrites(env, source, g, targets[..|targets| - 1]) + [Mutation(Set(Resolved(env, source, k, g)), BookletOccurrences, [k])]
  }

  datatype Setup = Setup(env: Env, columns: Columns, withOccurrences: bool, items: seq<Item>, source: Table)

  function AllRowProperties(setup: Setup): seq<Property> {
    RowProperties(setup.columns) + if setup.withOccurrences then [BookletOccurrences] else []
  }

  function BaseClears(setup: Setup, g: Group, several: bool): seq<Mutation> {
    if g.subId != "" || several then Clears(AllRowProperties(setup), [g.uuid]) else []
  }

  function Identity(key: string, g: Group): seq<Mutation> {
    if g.subId != "" then [Mutation(Set(Txt(g.uuid)), ItemUuid, [key]), Mutation(Set(Txt(g.subId)), SubId, [key])] else []
  }

  function OccurrenceMutations(setup: Setup, g: Group, targets: seq<string>): seq<Mutation> {
    if setup.withOccurrences then OccurrenceWrites(setup.env, setup.source, g, targets) else []
  }

  function MutationsAt(setup: Setup, key: string, g: Group, targets: seq<string>): seq<Mutation> {
    BaseClears(setup, g, |targets| > 1) + Identity(key, g) + Writes(RowProperties(setup.columns), g, targets) + OccurrenceMutations(setup, g, targets)
  }

  function GroupMutations(setup: Setup, key: string, g: Group): seq<Mutation> {
    MutationsAt(setup, key, g, Affected(setup.source, key, g))
  }

  function RowPhase(setup: Setup, groups: JsMap<string, Group>, order: seq<string>): seq<Mutation> {
    if order == [] then []
    else
      var key := order[|order| - 1];
      RowPhase(setup, groups, order[..|order| - 1]) + if groups.Has(key) then GroupMutations(setup, key, groups.at[key]) else []
  }

  // ---------------------------------------------------------------- items and units as a whole

  function ScopeOf(g: Group, unit: bool): string { if unit then g.unitId else g.uuid }

  /** `collectScopedValues` and `collectScopedTextValues` */
  function Scoped(groups: JsMap<string, Group>, order: seq<string>, p: Property, unit: bool): JsMap<string, seq<Value>> {
    if order == [] then EmptyMap()
    else
      var rest, key := Scoped(groups, order[..|order| - 1], p, unit), order[|order| - 1];
      if !groups.Has(key) then rest
      else
        var g := groups.at[key];
        var earlier := if rest.Has(ScopeOf(g, unit)) then rest.at[ScopeOf(g, unit)] else [];
        rest.Put(ScopeOf(g, unit), if Values(g, p) == [] then earlier else Add(earlier, Values(g, p)[0]))
  }

  /** An item as a whole shows the value or none, and none of its rows has one of its own. */
  function ItemMutations(source: Table, uuid: string, p: Property, values: seq<Value>): seq<Mutation> {
    [Mutation(SetOrClear(values), p, [uuid]), Mutation(Clear, p, PartialKeys(source.order, uuid))]
  }

  function ItemPhase(source: Table, p: Property, scoped: JsMap<string, seq<Value>>, order: seq<string>): seq<Mutation> {
    if order == [] then []
    else
      var uuid := order[|order| - 1];
      ItemPhase(source, p, scoped, order[..|order| - 1]) + if scoped.Has(uuid) then ItemMutations(source, uuid, p, scoped.at[uuid]) else []
  }

  /** The uuids of a unit's items, each once. */
  function UuidsOfUnit(items: seq<Item>, unitId: string): seq<string> {
    if items == [] then []
    else
      var rest, item := UuidsOfUnit(items[..|items| - 1], unitId), items[|items| - 1];
      if item.unitId == unitId && item.uuid !in rest then rest + [item.uuid] else rest
  }

  function UnitMutations(source: Table, p: Property, values: seq<Value>, uuids: seq<string>): seq<Mutation> {
    if uuids == [] then []
    else UnitMutations(source, p, values, uuids[..|uuids| - 1]) + ItemMutations(source, uuids[|uuids| - 1], p, values)
  }

  function UnitPhase(source: Table, items: seq<Item>, p: Property, scoped: JsMap<string, seq<Value>>, order: seq<string>): seq<Mutation> {
    if order == [] then []
    else
      var unitId := order[|order| - 1];
      UnitPhase(source, items, p, scoped, order[..|order| - 1])
      + if scoped.Has(unitId) then UnitMutations(source, p, scoped.at[unitId], UuidsOfUnit(items, unitId)) else []
  }

  // ------------------------------------------------------------------------------- the plan

  function Keeps(columns: Columns, ps: seq<Property>): seq<Mutation> {
    if ps == [] then []
    else Keeps(columns, ps[..|ps| - 1]) + if ps[|ps| - 1] in columns.at then [] else [Mutation(Keep, ps[|ps| - 1], [])]
  }

  function ScopedValues(setup: Setup, groups: JsMap<string, Group>, p: Property, unit: bool): JsMap<string, seq<Value>> {
    if p in setup.columns.at then Scoped(groups, groups.order, p, unit) else EmptyMap()
  }

  function AllMutations(setup: Setup, groups: JsMap<string, Group>): seq<Mutation> {
    var times, levels, stimuli := ScopedValues(setup, groups, ItemTimeSeconds, false), ScopedValues(setup, groups, CompetenceLevel, false), ScopedValues(setup, groups, StimulusTimeSeconds, true);
    Keeps(setup.columns, SCALARS + TEXTS) + (if setup.withOccurrences then [] else [Mutation(Keep, BookletOccurrences, [])])
    + RowPhase(setup, groups, groups.order)
    + ItemPhase(setup.source, ItemTimeSeconds, times, times.order)
    + ItemPhase(setup.source, CompetenceLevel, levels, levels.order)
    + UnitPhase(setup.source, setup.items, StimulusTimeSeconds, stimuli, stimuli.order)
  }

  /** No property has two values in a group, in an item or in a unit. */
  predicate GroupAgrees(g: Group) { forall p :: p in g.values ==> |g.values[p]| <= 1 }

  predicate GroupsAgree(groups: JsMap<string, Group>) { forall k :: k in groups.at ==> GroupAgrees(groups.at[k]) }

  predicate ScopesAgree(scoped: JsMap<string, seq<Value>>) { forall c :: c in scoped.at ==> |scoped.at[c]| <= 1 }

  function Conflicts(setup: Setup, groups: JsMap<string, Group>): Option<Conflict> {
    if !GroupsAgree(groups) then Some(DifferentValues)
    else if !ScopesAgree(ScopedValues(setup, groups, ItemTimeSeconds, false)) then Some(DifferentScopedValues(ItemTimeSeconds))
    else if !ScopesAgree(ScopedValues(setup, groups, StimulusTimeSeconds, true)) then Some(DifferentScopedValues(StimulusTimeSeconds))
    else if !ScopesAgree(ScopedValues(setup, groups, CompetenceLevel, false)) then Some(DifferentScopedValues(CompetenceLevel))
    else None
  }

  // ------------------------------------------------------------------------ applying a plan

  function ApplyTo(t: Table, m: Mutation, k: string): Table {
    match m.action
    case Keep => t
    case Set(v) => t.Put(k, (if t.Has(k) then t.at[k] else map[])[m.property := v])
    case Clear => if t.Has(k) then t.Put(k, t.at[k] - {m.property}) else t
  }

  function ApplyMutation(t: Table, m: Mutation, targets: seq<string>): Table {
    if targets == [] then t else ApplyTo(ApplyMutation(t, m, targets[..|targets| - 1]), m, targets[|targets| - 1])
  }

  function Applied(t: Table, ms: seq<Mutation>): Table {
    if ms == [] then t else ApplyMutation(Applied(t, ms[..|ms| - 1]), ms[|ms| - 1], ms[|ms| - 1].targets)
  }

  method ApplyPlan(source: Table, mutations: seq<Mutation>) returns (next: Table)
    ensures next == Applied(source, mutations)
  {
    next := source;
    for i := 0 to |mutations|
      invariant next == Applied(source, mutations[..i])
    {
      var m := mutations[i];
      assert mutations[..i + 1][..i] == mutations[..i];
      ghost var before := next;
      if m.action.Keep? {
        KeepsAll(before, m, m.targets);
        continue;
      }
      for j := 0 to |m.targets|
        invariant next == ApplyMutation(before, m, m.targets[..j])
      {
        assert m.targets[..j + 1][..j] == m.targets[..j];
        next := ApplyTo(next, m, m.targets[j]);
      }
      assert m.targets[..|m.targets|] == m.targets;
    }
    assert mutations[..|mutations|] == mutations;
  }

  lemma {:induction false} KeepsAll(t: Table, m: Mutation, targets: seq<string>)
    requires m.action.Keep?
    ensures ApplyMutation(t, m, targets) == t
  {
    if targets != [] { KeepsAll(t, m, targets[..|targets| - 1]); }
  }

  /** Some mutation says what becomes of this cell. */
  ghost predicate Says(m: Mutation, k: string, p: Property, a: Action) {
    m.action == a && m.property == p && k in m.targets && !a.Keep?
  }

  ghost predicate Names(ms: seq<Mutation>, k: string, p: Property, a: Action) {
    exists m :: m in ms && Says(m, k, p, a)
  }

  lemma NamesConcat(x: seq<Mutation>, y: seq<Mutation>, k: string, p: Property, a: Action)
    ensures Names(x + y, k, p, a) <==> Names(x, k, p, a) || Names(y, k, p, a)
  {
    assert forall m :: m in x + y <==> m in x || m in y;
  }

  lemma NamesOne(m: Mutation, k: string, p: Property, a: Action)
    ensures Names([m], k, p, a) <==> Says(m, k, p, a)
  {
    assert m in [m];
  }

  function Outcome(a: Action, before: Option<Value>): Option<Value> {
    match a
    case Keep => before
    case Set(v) => Some(v)
    case Clear => None
  }

  lemma {:induction false} MutationCell(t: Table, m: Mutation, targets: seq<string>, k: string, p: Property)
    ensures CellOf(ApplyMutation(t, m, targets), k, p) == if p == m.property && k in targets then Outcome(m.action, CellOf(t, k, p)) else CellOf(t, k, p)
    ensures ApplyMutation(t, m, targets).Has(k) <==> t.Has(k) || (m.action.Set? && k in targets)
  {
    if targets != [] {
      var rest, last := targets[..|targets| - 1], targets[|targets| - 1];
      MutationCell(t, m, rest, k, p);
      assert targets == rest + [last];
    }
  }

  /** Cells that are not named stay; cells about which all mutations agree become what they say. */
  lemma {:induction false} AppliedCell(t: Table, ms: seq<Mutation>, k: string, p: Property, a: Action)
    requires !a.Keep? && forall b :: Names(ms, k, p, b) ==> b == a
    ensures CellOf(Applied(t, ms), k, p) == if Names(ms, k, p, a) then Outcome(a, None) else CellOf(t, k, p)
  {
    if ms != [] {
      var rest, m := ms[..|ms| - 1], ms[|ms| - 1];
      assert ms == rest + [m];
      forall b ensures Names(ms, k, p, b) <==> Names(rest, k, p, b) || Says(m, k, p, b) {
        NamesConcat(rest, [m], k, p, b);
        NamesOne(m, k, p, b);
      }
      AppliedCell(t, rest, k, p, a);
      MutationCell(Applied(t, rest), m, m.targets, k, p);
      if !m.action.Keep? && m.property == p && k in m.targets { assert Says(m, k, p, m.action); }
    }
  }

  lemma {:induction false} AppliedHas(t: Table, ms: seq<Mutation>, k: string)
    ensures Applied(t, ms).Has(k) <==> t.Has(k) || exists m :: m in ms && m.action.Set? && k in m.targets
  {
    if ms != [] {
      var rest, m := ms[..|ms| - 1], ms[|ms| - 1];
      AppliedHas(t, rest, k);
      MutationCell(Applied(t, rest), m, m.targets, k, Bista);
      assert ms == rest + [m];
      assert forall n :: n in ms <==> n in rest || n == m;
    }
  }
}
