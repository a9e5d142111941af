/** backend/src/items/item-parameter-import.pipeline.ts: the loops of `buildPlan` and of the methods
    it calls, and `execute`. */
module ItemParameterImportPipeline {
  import opened ItemParameterImport
  import opened ItemParameterPlan
  import ItemParameterOutcome
  import opened ItemParameterResults
  import opened JsMaps
  import opened Outcomes
  import opened Sorting
  import opened Text

  /** `resolveOccurrenceColumnState` */
  method OccurrenceColumnState(columns: Columns, rows: seq<Row>) returns (importOccurrences: bool)
    ensures importOccurrences == WithOccurrences(columns, rows)
  {
    if columns.booklet == None { return false; }
    var hasBookletValue, hasPositionWithoutBooklet := false, false;
    for i := 0 to |rows|
      invariant hasBookletValue <==> exists j :: 0 <= j < i && OptionalCell(rows[j], columns.booklet) != ""
      invariant hasPositionWithoutBooklet <==>
        exists j :: 0 <= j < i && OptionalCell(rows[j], columns.booklet) == "" && OptionalCell(rows[j], columns.position) != ""
    {
      var booklet, position := OptionalCell(rows[i], columns.booklet), OptionalCell(rows[i], columns.position);
      if booklet != "" { hasBookletValue := true; }
      if booklet == "" && position != "" { hasPositionWithoutBooklet := true; }
    }
    return !hasPositionWithoutBooklet && (hasBookletValue || columns.at == map[]);
  }

  method ReadContent(env: Env, columns: Columns, withOccurrences: bool, row: Row) returns (r: Result<Content, Reason>)
    ensures r == ContentOf(env, columns, withOccurrences, row)
  {
    var scalars := ReadColumns(env, columns, row, Imported(columns, SCALARS));
    var texts := ReadColumns(env, columns, row, Imported(columns, TEXTS));
    var values := BothRead(scalars, texts);
    if values.Err? { return Err(values.error); }
    var m := MentionOf(env, columns, withOccurrences, row);
    if m.Err? { return Err(m.error); }
    return Ok(Content(values.value, m.value));
  }

  method ReadLine(env: Env, columns: Columns, withOccurrences: bool, items: seq<Item>, row: Row) returns (v: Verdict)
    ensures v == VerdictOf(env, columns, withOccurrences, items, row)
  {
    if Blank(row) { return Skipped; }
    var raw := Cell(row, columns.item);
    if raw == "" { return Unmatched(ItemMissing); }
    if columns.requireDifficulty && env.number(Cell(row, ColumnOf(columns, EmpiricalDifficulty))) == None { return Skipped; }
    var found := FindItem(items, raw);
    if found == None { return Unmatched(NoSuchItem); }
    var content := ReadContent(env, columns, withOccurrences, row);
    return Matched(found.value, OptionalCell(row, columns.subId), content);
  }

  lemma {:induction false} ConflictStays(single: bool, vs: seq<Verdict>, i: nat)
    requires i <= |vs| && Gather(single, vs[..i]).Err?
    ensures Gather(single, vs) == Gather(single, vs[..i])
    decreases |vs| - i
  {
    if i < |vs| {
      assert vs[..i + 1][..i] == vs[..i];
      ConflictStays(single, vs, i + 1);
    } else {
      assert vs[..i] == vs;
    }
  }

  /** An accepted line goes into its group. */
  method AddLine(single: bool, s: Gathering, v: Verdict) returns (r: Result<Gathering, Conflict>)
    requires v.Matched?
    ensures r == Take(single, s, v)
  {
    var key := RowKeyOf(v);
    var group := GroupAt(s.groups, v);
    if single && s.groups.Has(key) { return Err(RepeatedLine(key)); }
    if v.content.Err? { return Ok(s.(failed := s.failed + [v.content.error])); }
    var mention := v.content.value.mention;
    if mention.Nowhere? && group.mentionsNowhere { return Err(RepeatedNowhere(key)); }
    if mention.At? && mention.occurrence in group.occurrences { return Err(RepeatedOccurrence(key, mention.occurrence)); }
    var partial := v.subId != "";
    if v.item.uuid in s.partial && s.partial[v.item.uuid] != partial { return Err(MixedForms(v.item.uuid)); }
    var groups := s.groups.Put(key, Extended(group, v.content.value));
    return Ok(Gathering(groups, s.partial[v.item.uuid := partial], s.failed));
  }

  /** One more line is gathered. */
  lemma GatherOneMore(single: bool, vs: seq<Verdict>, i: nat, s: Gathering)
    requires i < |vs| && Gather(single, vs[..i]) == Ok(s)
    ensures Gather(single, vs[..i + 1]) == Take(single, s, vs[i])
  {
    assert vs[..i + 1][..i] == vs[..i];
  }

  /** The first line that conflicts is the outcome. */
  lemma GatherStops(single: bool, vs: seq<Verdict>, i: nat, s: Gathering)
    requires i < |vs| && Gather(single, vs[..i]) == Ok(s) && Take(single, s, vs[i]).Err?
    ensures Gather(single, vs) == Take(single, s, vs[i])
  {
    GatherOneMore(single, vs, i, s);
    ConflictStays(single, vs, i + 1);
  }

  /** What a line makes of what was gathered before. */
  method TakeLine(single: bool, s: Gathering, v: Verdict) returns (r: Result<Gathering, Conflict>)
    ensures r == Take(single, s, v)
  {
    match v
    case Skipped => return Ok(s);
    case Unmatched(reason) => return Ok(s.(failed := s.failed + [reason]));
    case Matched(_, _, _) => r := AddLine(single, s, v);
  }

  method GatherLines(env: Env, columns: Columns, withOccurrences: bool, items: seq<Item>, rows: seq<Row>) returns (r: Result<Gathering, Conflict>)
    ensures r == Gather(Single(columns), Verdicts(env, columns, withOccurrences, items, rows))
  {
    ghost var vs := Verdicts(env, columns, withOccurrences, items, rows);
    var single, s := Single(columns), NOTHING_GATHERED;
    for i := 0 to |rows|
      invariant Gather(single, vs[..i]) == Ok(s)
    {
      GatherOneMore(single, vs, i, s);
      var v := ReadLine(env, columns, withOccurrences, items, rows[i]);
      var taken := TakeLine(single, s, v);
      if taken.Err? {
        GatherStops(single, vs, i, s);
        return taken;
      }
      s := taken.value;
    }
    assert vs[..|rows|] == vs;
    return Ok(s);
  }

  /** `validateGroupConflicts` */
  method ValidateGroups(groups: JsMap<string, Group>) returns (agree: bool)
    requires groups.Valid()
    ensures agree == GroupsAgree(groups)
  {
    for i := 0 to |groups.order|
      invariant forall j :: 0 <= j < i ==> GroupAgrees(groups.at[groups.order[j]])
    {
      if !GroupAgrees(groups.at[groups.order[i]]) { return false; }
    }
    assert forall k :: k in groups.at ==> k in groups.order;
    return true;
  }

  /** `collectScopedValues` */
  method CollectScoped(setup: Setup, groups: JsMap<string, Group>, p: Property, unit: bool) returns (values: JsMap<string, seq<Value>>)
    requires groups.Valid()
    ensures values == ScopedValues(setup, groups, p, unit)
  {
    values := EmptyMap();
    if p !in setup.columns.at { return; }
    var order := groups.order;
    for i := 0 to |order|
      invariant values == Scoped(groups, order[..i], p, unit)
    {
      assert order[..i + 1][..i] == order[..i];
      var group := groups.at[order[i]];
      var key := ScopeOf(group, unit);
      var found := if values.Has(key) then values.at[key] else [];
      if Values(group, p) != [] { found := Add(found, Values(group, p)[0]); }
      values := values.Put(key, found);
    }
    assert order[..|order|] == order;
  }

  method BuildRowPhase(setup: Setup, groups: JsMap<string, Group>) returns (mutations: seq<Mutation>)
    requires groups.Valid()
    ensures mutations == RowPhase(setup, groups, groups.order)
  {
    mutations := [];
    var order := groups.order;
    for i := 0 to |order|
      invariant mutations == RowPhase(setup, groups, order[..i])
    {
      assert order[..i + 1][..i] == order[..i];
      mutations := mutations + GroupMutations(setup, order[i], groups.at[order[i]]);
    }
    assert order[..|order|] == order;
  }

  /** `addItemScopeMutations` and `addCompetenceLevelMutations` */
  method BuildItemPhase(source: Table, p: Property, values: JsMap<string, seq<Value>>) returns (mutations: seq<Mutation>)
    requires values.Valid()
    ensures mutations == ItemPhase(source, p, values, values.order)
  {
    mutations := [];
    var order := values.order;
    for i := 0 to |order|
      invariant mutations == ItemPhase(source, p, values, order[..i])
    {
      assert order[..i + 1][..i] == order[..i];
      mutations := mutations + ItemMutations(source, order[i], p, values.at[order[i]]);
    }
    assert order[..|order|] == order;
  }

  method BuildUnit(source: Table, p: Property, values: seq<Value>, uuids: seq<string>) returns (mutations: seq<Mutation>)
    ensures mutations == UnitMutations(source, p, values, uuids)
  {
    mutations := [];
    for i := 0 to |uuids|
      invariant mutations == UnitMutations(source, p, values, uuids[..i])
    {
      assert uuids[..i + 1][..i] == uuids[..i];
      mutations := mutations + ItemMutations(source, uuids[i], p, values);
    }
    assert uuids[..|uuids|] == uuids;
  }

  lemma UnitPhaseStep(setup: Setup, p: Property, values: JsMap<string, seq<Value>>, order: seq<string>, i: nat)
    requires i < |order| && values.Has(order[i])
    ensures UnitPhase(setup.source, setup.items, p, values, order[..i + 1])
         == UnitPhase(setup.source, setup.items, p, values, order[..i])
            + UnitMutations(setup.source, p, values.at[order[i]], UuidsOfUnit(setup.items, order[i]))
  {
    assert order[..i + 1][..i] == order[..i];
  }

  /** `addUnitScopeMutations` */
  method BuildUnitPhase(setup: Setup, p: Property, values: JsMap<string, seq<Value>>) returns (mutations: seq<Mutation>)
    requires values.Valid()
    ensures mutations == UnitPhase(setup.source, setup.items, p, values, values.order)
  {
    mutations := [];
    var order := values.order;
    for i := 0 to |order|
      invariant mutations == UnitPhase(setup.source, setup.items, p, values, order[..i])
    {
      UnitPhaseStep(setup, p, values, order, i);
      var phase := BuildUnit(setup.source, p, values.at[order[i]], UuidsOfUnit(setup.items, order[i]));
      mutations := mutations + phase;
    }
    assert order[..|order|] == order;
  }

  method BuildPlan(setup: Setup, groups: JsMap<string, Group>) returns (r: Result<seq<Mutation>, Conflict>)
    requires groups.Valid()
    ensures r == match Conflicts(setup, groups) { case Some(e) => Err(e) case None => Ok(AllMutations(setup, groups)) }
  {
    var agree := ValidateGroups(groups);
    if !agree { return Err(DifferentValues); }
    var times := CollectScoped(setup, groups, ItemTimeSeconds, false);
    var stimuli := CollectScoped(setup, groups, StimulusTimeSeconds, true);
    var levels := CollectScoped(setup, groups, CompetenceLevel, false);
    if !ScopesAgree(times) { return Err(DifferentScopedValues(ItemTimeSeconds)); }
    if !ScopesAgree(stimuli) { return Err(DifferentScopedValues(StimulusTimeSeconds)); }
    if !ScopesAgree(levels) { return Err(DifferentScopedValues(CompetenceLevel)); }
    ItemParameterOutcome.ScopedValid(groups, groups.order, ItemTimeSeconds, false);
    ItemParameterOutcome.ScopedValid(groups, groups.order, CompetenceLevel, false);
    ItemParameterOutcome.ScopedValid(groups, groups.order, StimulusTimeSeconds, true);
    var mutations := Keeps(setup.columns, SCALARS + TEXTS) + if setup.withOccurrences then [] else [Mutation(Keep, BookletOccurrences, [])];
    var phase := BuildRowPhase(setup, groups);
    mutations := mutations + phase;
    phase := BuildItemPhase(setup.source, ItemTimeSeconds, times);
    mutations := mutations + phase;
    phase := BuildItemPhase(setup.source, CompetenceLevel, levels);
    mutations := mutations + phase;
    phase := BuildUnitPhase(setup, StimulusTimeSeconds, stimuli);
    mutations := mutations + phase;
    return Ok(mutations);
  }

  lemma GatheredValid(single: bool, vs: seq<Verdict>)
    requires Gather(single, vs).Ok?
    ensures Gather(single, vs).value.groups.Valid()
  {
    GroupKeys(single, vs, "");
  }

  /** `execute` */
  method Execute(env: Env, columns: Columns, items: seq<Item>, source: Table, rows: seq<Row>) returns (r: Result<Table, Conflict>)
    ensures r == Import(env, columns, items, source, rows)
  {
    var withOccurrences := OccurrenceColumnState(columns, rows);
    var gathered := GatherLines(env, columns, withOccurrences, items, rows);
    if gathered.Err? { return Err(gathered.error); }
    GatheredValid(Single(columns), Verdicts(env, columns, withOccurrences, items, rows));
    var setup := Setup(env, columns, withOccurrences, items, source);
    var plan := BuildPlan(setup, gathered.value.groups);
    if plan.Err? { return Err(plan.error); }
    var next := ApplyPlan(source, plan.value);
    return Ok(next);
  }

  /** `execute` from the text of the lines after the header. */
  method ExecuteLines(env: Env, columns: Columns, items: seq<Item>, source: Table, lines: seq<string>) returns (r: Result<Table, Conflict>)
    ensures r == ImportLines(env, columns, items, source, lines)
  {
    var rows: seq<Row> := [];
    for i := 0 to |lines|
      invariant |rows| == i && forall j :: 0 <= j < i ==> rows[j] == Cells(Trim(lines[j]), 0, [], "", false)
    {
      var row := ParseCsvLine(Trim(lines[i]));
      rows := rows + [row];
    }
    assert rows == RowsOf(lines);
    r := Execute(env, columns, items, source, rows);
  }
}
