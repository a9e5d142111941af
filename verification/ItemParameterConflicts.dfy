/** backend/src/items/item-parameter-import.pipeline.ts: which imports go through. Exactly those no two
    lines of which repeat or contradict each other. */
module ItemParameterConflicts {
  import opened ItemParameterImport
  import opened ItemParameterPlan
  import opened ItemParameterOutcome
  import opened ItemParameterResults
  import opened ItemParameterLines
  import opened JsMaps
  import opened Outcomes
  import opened Sorting

  predicate SameRow(a: Verdict, b: Verdict) { a.Matched? && b.Matched? && RowKeyOf(a) == RowKeyOf(b) }

  /** Both lines say that the item is in no booklet, or both name the same occurrence. */
  predicate SameMention(a: Verdict, b: Verdict)
    requires Accepted(a) && Accepted(b)
  {
    !b.content.value.mention.Unasked? && a.content.value.mention == b.content.value.mention
  }

  /** A line that cannot follow the accepted line `a`: where an item row may have one line only, any
      line of the same row, even an invalid one; otherwise an accepted line that repeats what `a` says of
      its row, or that names the item of `a` in the other form. */
  predicate Clash(single: bool, a: Verdict, b: Verdict) {
    && Accepted(a) && b.Matched?
    && (|| (single && SameRow(a, b))
        || (Accepted(b) && SameRow(a, b) && SameMention(a, b))
        || (Accepted(b) && a.item.uuid == b.item.uuid && (a.subId != "") != (b.subId != "")))
  }

  ghost predicate NoPair<T>(s: seq<T>, bad: (T, T) -> bool) {
    forall i, j :: 0 <= i < j < |s| ==> !bad(s[i], s[j])
  }

  function Clashes(single: bool): (Verdict, Verdict) -> bool { (a: Verdict, b: Verdict) => Clash(single, a, b) }

  ghost predicate NoClash(single: bool, vs: seq<Verdict>) { NoPair(vs, Clashes(single)) }

  ghost predicate NoneBefore<T>(s: seq<T>, bad: (T, T) -> bool, x: T) {
    forall i :: 0 <= i < |s| ==> !bad(s[i], x)
  }

  ghost predicate Follows(single: bool, vs: seq<Verdict>, v: Verdict) { NoneBefore(vs, Clashes(single), v) }

  // ----------------------------------------------------------------------- what is gathered

  ghost predicate SaysNowhere(vs: seq<Verdict>, k: string) {
    exists v :: v in vs && OfRow(v, k) && v.content.value.mention.Nowhere?
  }

  lemma SaysNowhereIn(vs: seq<Verdict>, k: string)
    requires vs != []
    ensures var v := vs[|vs| - 1];
      SaysNowhere(vs, k) <==> SaysNowhere(vs[..|vs| - 1], k) || (OfRow(v, k) && v.content.value.mention.Nowhere?)
  {
    var rest, v := vs[..|vs| - 1], vs[|vs| - 1];
    assert vs == rest + [v];
  }

  lemma {:induction false} GroupNowhere(single: bool, vs: seq<Verdict>, k: string)
    requires Gather(single, vs).Ok? && Gather(single, vs).value.groups.Has(k)
    ensures Gather(single, vs).value.groups.at[k].mentionsNowhere <==> SaysNowhere(vs, k)
  {
    var rest, v := vs[..|vs| - 1], vs[|vs| - 1];
    var s := Gather(single, rest).value;
    SaysNowhereIn(vs, k);
    TakenGroup(single, s, v, k);
    GroupKeys(single, rest, k);
    if s.groups.Has(k) { GroupNowhere(single, rest, k); }
  }

  ghost predicate NamesItem(vs: seq<Verdict>, uuid: string) { exists v :: v in vs && Accepted(v) && v.item.uuid == uuid }

  lemma {:induction false} PartialNames(single: bool, vs: seq<Verdict>, uuid: string)
    requires Gather(single, vs).Ok?
    ensures uuid in Gather(single, vs).value.partial <==> NamesItem(vs, uuid)
  {
    if vs != [] {
      var rest, v := vs[..|vs| - 1], vs[|vs| - 1];
      PartialNames(single, rest, uuid);
      assert vs == rest + [v];
    }
  }

  // -------------------------------------------------------------------- when gathering fails

  lemma RowIsTaken(single: bool, vs: seq<Verdict>, v: Verdict)
    requires Gather(single, vs).Ok? && v.Matched?
    ensures Gather(single, vs).value.groups.Has(RowKeyOf(v)) <==> exists a :: a in vs && Accepted(a) && SameRow(a, v)
  {
    GroupKeys(single, vs, RowKeyOf(v));
    if HasRow(vs, RowKeyOf(v)) {
      var a :| a in vs && OfRow(a, RowKeyOf(v));
      assert SameRow(a, v);
    }
    if a :| a in vs && Accepted(a) && SameRow(a, v) { assert OfRow(a, RowKeyOf(v)); }
  }

  predicate Repeats(s: Gathering, v: Verdict)
    requires Accepted(v)
  {
    var g, mention := GroupAt(s.groups, v), v.content.value.mention;
    (mention.Nowhere? && g.mentionsNowhere) || (mention.At? && mention.occurrence in g.occurrences)
  }

  lemma MentionIsTaken(single: bool, vs: seq<Verdict>, v: Verdict)
    requires Gather(single, vs).Ok? && Accepted(v)
    ensures Repeats(Gather(single, vs).value, v) <==> exists a :: a in vs && Accepted(a) && SameRow(a, v) && SameMention(a, v)
  {
    var s, k, mention := Gather(single, vs).value, RowKeyOf(v), v.content.value.mention;
    GroupKeys(single, vs, k);
    if s.groups.Has(k) {
      GroupNowhere(single, vs, k);
      if mention.At? { GroupPlaces(single, vs, k, mention.occurrence); }
    }
    if Repeats(s, v) {
      if mention.Nowhere? {
        var a :| a in vs && OfRow(a, k) && a.content.value.mention.Nowhere?;
        assert SameRow(a, v) && SameMention(a, v);
      } else {
        var a :| a in vs && Places(a, k, mention.occurrence);
        assert SameRow(a, v) && SameMention(a, v);
      }
    }
    if a :| a in vs && Accepted(a) && SameRow(a, v) && SameMention(a, v) {
      assert OfRow(a, k);
      if mention.At? { assert Places(a, k, mention.occurrence); }
    }
  }

  predicate InOtherForm(s: Gathering, v: Verdict)
    requires v.Matched?
  {
    v.item.uuid in s.partial && s.partial[v.item.uuid] != (v.subId != "")
  }

  lemma FormIsTaken(single: bool, vs: seq<Verdict>, v: Verdict)
    requires Gather(single, vs).Ok? && v.Matched?
    ensures InOtherForm(Gather(single, vs).value, v) <==>
      exists a :: a in vs && Accepted(a) && a.item.uuid == v.item.uuid && (a.subId != "") != (v.subId != "")
  {
    PartialNames(single, vs, v.item.uuid);
    if v.item.uuid in Gather(single, vs).value.partial {
      var a :| a in vs && Accepted(a) && a.item.uuid == v.item.uuid;
      OneForm(single, vs, a);
    }
    if a :| a in vs && Accepted(a) && a.item.uuid == v.item.uuid && (a.subId != "") != (v.subId != "") { OneForm(single, vs, a); }
  }

  lemma TakeFails(single: bool, s: Gathering, v: Verdict)
    ensures Take(single, s, v).Err? <==>
      v.Matched? && ((single && s.groups.Has(RowKeyOf(v))) || (Accepted(v) && (Repeats(s, v) || InOtherForm(s, v))))
  {
  }

  lemma TakeFailsExactly(single: bool, vs: seq<Verdict>, v: Verdict)
    requires Gather(single, vs).Ok?
    ensures Take(single, Gather(single, vs).value, v).Ok? <==> Follows(single, vs, v)
  {
    var s := Gather(single, vs).value;
    TakeFails(single, s, v);
    if v.Matched? {
      RowIsTaken(single, vs, v);
      FormIsTaken(single, vs, v);
      if Accepted(v) { MentionIsTaken(single, vs, v); }
    }
    if !Follows(single, vs, v) {
      var i :| 0 <= i < |vs| && Clashes(single)(vs[i], v);
      assert vs[i] in vs && Clash(single, vs[i], v);
    }
    if Follows(single, vs, v) {
      forall a | a in vs ensures !Clash(single, a, v) {
        var i :| 0 <= i < |vs| && vs[i] == a;
        assert !Clashes(single)(vs[i], v);
      }
    }
  }

  lemma NoPairPrefix<T>(s: seq<T>, bad: (T, T) -> bool)
    requires s != []
    ensures NoPair(s, bad) <==> NoPair(s[..|s| - 1], bad) && NoneBefore(s[..|s| - 1], bad, s[|s| - 1])
  {
    var rest, n := s[..|s| - 1], |s| - 1;
    if NoPair(s, bad) {
      forall i | 0 <= i < n ensures !bad(rest[i], s[n]) { assert s[i] == rest[i]; }
    }
    if NoPair(rest, bad) && NoneBefore(rest, bad, s[n]) {
      forall i, j | 0 <= i < j < |s| ensures !bad(s[i], s[j]) {
        assert s[i] == rest[i];
        if j < n { assert s[j] == rest[j]; }
      }
    }
  }

  /** Lines are gathered exactly if none of them clashes with an earlier one. */
  lemma {:induction false} GathersExactly(single: bool, vs: seq<Verdict>)
    ensures Gather(single, vs).Ok? <==> NoClash(single, vs)
  {
    if vs != [] {
      GathersExactly(single, vs[..|vs| - 1]);
      NoPairPrefix(vs, Clashes(single));
      if Gather(single, vs[..|vs| - 1]).Ok? { TakeFailsExactly(single, vs[..|vs| - 1], vs[|vs| - 1]); }
    }
  }

  // ------------------------------------------------------------------------ different values

  lemma AddDistinct(s: seq<Value>, x: Value)
    requires Distinct(s)
    ensures Distinct(Add(s, x))
  {
  }

  lemma {:induction false} GroupValuesDistinct(single: bool, vs: seq<Verdict>, k: string, p: Property)
    requires Gather(single, vs).Ok? && Gather(single, vs).value.groups.Has(k)
    ensures Distinct(Values(Gather(single, vs).value.groups.at[k], p))
  {
    var rest, v := vs[..|vs| - 1], vs[|vs| - 1];
    var s := Gather(single, rest).value;
    TakenGroup(single, s, v, k);
    if s.groups.Has(k) { GroupValuesDistinct(single, rest, k, p); }
    if OfRow(v, k) {
      var g := GroupAt(s.groups, v);
      ExtendedDistinct(g, v.content.value, p);
    }
  }

  lemma ExtendedDistinct(g: Group, c: Content, p: Property)
    requires Distinct(Values(g, p))
    ensures Distinct(Values(Extended(g, c), p))
  {
    if p in c.values { AddDistinct(Values(g, p), c.values[p]); }
  }

  lemma {:induction false} ScopedDistinct(groups: JsMap<string, Group>, order: seq<string>, p: Property, unit: bool, c: string)
    ensures Distinct(ScopeValues(Scoped(groups, order, p, unit), c))
  {
    if order != [] {
      var rest, key := Scoped(groups, order[..|order| - 1], p, unit), order[|order| - 1];
      ScopedDistinct(groups, order[..|order| - 1], p, unit, c);
      if groups.Has(key) {
        var values, d := Values(groups.at[key], p), ScopeOf(groups.at[key], unit);
        var now := if values == [] then ScopeValues(rest, d) else Add(ScopeValues(rest, d), values[0]);
        assert Scoped(groups, order, p, unit) == rest.Put(d, now);
        ScopePut(rest, d, now, c);
        if c == d && values != [] { AddDistinct(ScopeValues(rest, d), values[0]); }
      }
    }
  }

  ghost predicate OnlyOneOf(holds: Value -> bool) { forall x, y :: holds(x) && holds(y) ==> x == y }

  lemma AtMostOneExactly(s: seq<Value>, holds: Value -> bool)
    requires Distinct(s) && forall x :: x in s <==> holds(x)
    ensures |s| <= 1 <==> OnlyOneOf(holds)
  {
    if |s| > 1 { assert holds(s[0]) && holds(s[1]) && s[0] != s[1]; }
    if |s| <= 1 {
      forall x, y | holds(x) && holds(y) ensures x == y { assert x in s && y in s; }
    }
  }

  ghost function RowValue(vs: seq<Verdict>, k: string, p: Property): Value -> bool { (x: Value) => HasValue(vs, k, p, x) }

  ghost function GivenValue(vs: seq<Verdict>, unit: bool, c: string, p: Property): Value -> bool { (x: Value) => Given(vs, unit, c, p, x) }

  /** The lines of each row agree. */
  ghost predicate RowsAgree(vs: seq<Verdict>) { forall k, p :: OnlyOneOf(RowValue(vs, k, p)) }

  /** The lines of each item, or of each unit, agree about `p`. */
  ghost predicate LinesAgree(vs: seq<Verdict>, unit: bool, p: Property) { forall c :: OnlyOneOf(GivenValue(vs, unit, c, p)) }

  lemma GroupAgreesExactly(single: bool, vs: seq<Verdict>, k: string, p: Property)
    requires Gather(single, vs).Ok?
    ensures var groups := Gather(single, vs).value.groups;
      (groups.Has(k) ==> |Values(groups.at[k], p)| <= 1) <==> OnlyOneOf(RowValue(vs, k, p))
  {
    var groups := Gather(single, vs).value.groups;
    if groups.Has(k) {
      GroupValuesDistinct(single, vs, k, p);
      forall x ensures x in Values(groups.at[k], p) <==> RowValue(vs, k, p)(x) { GroupValues(single, vs, k, p, x); }
      AtMostOneExactly(Values(groups.at[k], p), RowValue(vs, k, p));
    } else {
      NoValues(single, vs, k, p, Null);
      forall x ensures !RowValue(vs, k, p)(x) { NoValues(single, vs, k, p, x); }
    }
  }

  lemma GroupsAgreeExactly(single: bool, vs: seq<Verdict>)
    requires Gather(single, vs).Ok?
    ensures GroupsAgree(Gather(single, vs).value.groups) <==> RowsAgree(vs)
  {
    var groups := Gather(single, vs).value.groups;
    GroupKeys(single, vs, "");
    if GroupsAgree(groups) {
      forall k, p ensures OnlyOneOf(RowValue(vs, k, p)) {
        GroupAgreesExactly(single, vs, k, p);
        if groups.Has(k) { assert GroupAgrees(groups.at[k]); }
      }
    }
    if RowsAgree(vs) {
      forall k | k in groups.at ensures GroupAgrees(groups.at[k]) {
        forall p | p in groups.at[k].values ensures |groups.at[k].values[p]| <= 1 {
          GroupAgreesExactly(single, vs, k, p);
          assert OnlyOneOf(RowValue(vs, k, p));
        }
      }
    }
  }

  lemma ScopeAgreesExactly(setup: Setup, single: bool, vs: seq<Verdict>, p: Property, unit: bool, c: string)
    requires ItemsOk(setup.items) && FromItems(vs, setup.items) && Gather(single, vs).Ok? && p in setup.columns.at
    requires GroupsAgree(Gather(single, vs).value.groups)
    ensures var scoped := ScopedValues(setup, Gather(single, vs).value.groups, p, unit);
      (scoped.Has(c) ==> |scoped.at[c]| <= 1) <==> OnlyOneOf(GivenValue(vs, unit, c, p))
  {
    var groups := Gather(single, vs).value.groups;
    var scoped := ScopedValues(setup, groups, p, unit);
    MentionedExactly(setup, single, vs, p, unit, c);
    if Mentioned(vs, unit, c) {
      ScopedDistinct(groups, groups.order, p, unit, c);
      forall x ensures x in scoped.at[c] <==> GivenValue(vs, unit, c, p)(x) { GivenExactly(setup, single, vs, p, unit, c, x); }
      AtMostOneExactly(scoped.at[c], GivenValue(vs, unit, c, p));
    } else {
      forall x ensures !GivenValue(vs, unit, c, p)(x) { if Given(vs, unit, c, p, x) { GivenIsMentioned(vs, unit, c, p, x); } }
    }
  }

  lemma GivenIsMentioned(vs: seq<Verdict>, unit: bool, c: string, p: Property, x: Value)
    requires Given(vs, unit, c, p, x)
    ensures Mentioned(vs, unit, c)
  {
    var v :| v in vs && LineGives(v, unit, c, p, x);
    assert LineIn(v, unit, c);
  }

  lemma GivenHasColumn(vs: seq<Verdict>, columns: Columns, unit: bool, c: string, p: Property, x: Value)
    requires OfColumns(vs, columns) && Given(vs, unit, c, p, x)
    ensures p in columns.at
  {
    var v :| v in vs && LineGives(v, unit, c, p, x);
  }

  /** No line has a value for which the file has no column. */
  ghost predicate OfColumns(vs: seq<Verdict>, columns: Columns) {
    forall v, p :: v in vs && Accepted(v) && p in v.content.value.values ==> p in columns.at
  }

  lemma ScopesAgreeExactly(setup: Setup, single: bool, vs: seq<Verdict>, p: Property, unit: bool)
    requires ItemsOk(setup.items) && FromItems(vs, setup.items) && OfColumns(vs, setup.columns) && Gather(single, vs).Ok?
    requires GroupsAgree(Gather(single, vs).value.groups)
    ensures ScopesAgree(ScopedValues(setup, Gather(single, vs).value.groups, p, unit)) <==> LinesAgree(vs, unit, p)
  {
    var scoped := ScopedValues(setup, Gather(single, vs).value.groups, p, unit);
    GroupKeys(single, vs, "");
    if p in setup.columns.at {
      ScopedValid(Gather(single, vs).value.groups, Gather(single, vs).value.groups.order, p, unit);
      forall c ensures (c in scoped.at ==> |scoped.at[c]| <= 1) <==> OnlyOneOf(GivenValue(vs, unit, c, p)) {
        ScopeAgreesExactly(setup, single, vs, p, unit, c);
      }
    } else {
      forall c, x ensures !GivenValue(vs, unit, c, p)(x) {
        if Given(vs, unit, c, p, x) { GivenHasColumn(vs, setup.columns, unit, c, p, x); }
      }
    }
  }

  lemma {:induction false} ScopedValid(groups: JsMap<string, Group>, order: seq<string>, p: Property, unit: bool)
    ensures Scoped(groups, order, p, unit).Valid()
  {
    if order != [] { ScopedValid(groups, order[..|order| - 1], p, unit); }
  }

  // ------------------------------------------------------------------ what lines contradict

  predicate BothGive(a: Verdict, b: Verdict, p: Property)
    requires Accepted(a) && Accepted(b)
  {
    p in a.content.value.values && p in b.content.value.values
  }

  /** Both lines give a value of `p`, and not the same one: for one row, of an item time or a
      competence level for one item, or of a stimulus time for one unit. */
  predicate Contradict(a: Verdict, b: Verdict, p: Property) {
    && Accepted(a) && Accepted(b) && BothGive(a, b, p) && a.content.value.values[p] != b.content.value.values[p]
    && (|| SameRow(a, b)
        || (OfWholeItems(p) && a.item.uuid == b.item.uuid)
        || (p == StimulusTimeSeconds && a.item.unitId == b.item.unitId))
  }

  ghost predicate NoContradiction(vs: seq<Verdict>) {
    forall a, b, p :: a in vs && b in vs ==> !Contradict(a, b, p)
  }

  lemma RowsDiffer(vs: seq<Verdict>, k: string, p: Property, x: Value, y: Value)
    requires HasValue(vs, k, p, x) && HasValue(vs, k, p, y) && x != y
    ensures !NoContradiction(vs)
  {
    var a :| a in vs && Carries(a, k, p, x);
    var b :| b in vs && Carries(b, k, p, y);
    assert Contradict(a, b, p);
  }

  lemma LinesDiffer(vs: seq<Verdict>, unit: bool, c: string, p: Property, x: Value, y: Value)
    requires Given(vs, unit, c, p, x) && Given(vs, unit, c, p, y) && x != y && (if unit then p == StimulusTimeSeconds else OfWholeItems(p))
    ensures !NoContradiction(vs)
  {
    var a :| a in vs && LineGives(a, unit, c, p, x);
    var b :| b in vs && LineGives(b, unit, c, p, y);
    assert Contradict(a, b, p);
  }

  lemma RowsSame(vs: seq<Verdict>, a: Verdict, b: Verdict, p: Property)
    requires RowsAgree(vs) && a in vs && b in vs && Accepted(a) && Accepted(b) && SameRow(a, b) && BothGive(a, b, p)
    ensures a.content.value.values[p] == b.content.value.values[p]
  {
    var k, x, y := RowKeyOf(a), a.content.value.values[p], b.content.value.values[p];
    assert Carries(a, k, p, x) && Carries(b, k, p, y);
    assert OnlyOneOf(RowValue(vs, k, p)) && RowValue(vs, k, p)(x) && RowValue(vs, k, p)(y);
  }

  lemma LinesSame(vs: seq<Verdict>, a: Verdict, b: Verdict, p: Property, unit: bool, c: string)
    requires LinesAgree(vs, unit, p) && a in vs && b in vs && LineIn(a, unit, c) && LineIn(b, unit, c) && BothGive(a, b, p)
    ensures a.content.value.values[p] == b.content.value.values[p]
  {
    var x, y := a.content.value.values[p], b.content.value.values[p];
    assert LineGives(a, unit, c, p, x) && LineGives(b, unit, c, p, y);
    assert OnlyOneOf(GivenValue(vs, unit, c, p)) && GivenValue(vs, unit, c, p)(x) && GivenValue(vs, unit, c, p)(y);
  }

  ghost predicate AllAgree(vs: seq<Verdict>) {
    RowsAgree(vs) && LinesAgree(vs, false, ItemTimeSeconds) && LinesAgree(vs, true, StimulusTimeSeconds) && LinesAgree(vs, false, CompetenceLevel)
  }

  lemma AgreementMeans(vs: seq<Verdict>)
    ensures AllAgree(vs) <==> NoContradiction(vs)
  {
    if AllAgree(vs) {
      forall a, b, p | a in vs && b in vs && Accepted(a) && Accepted(b) && BothGive(a, b, p) ensures !Contradict(a, b, p) {
        if SameRow(a, b) { RowsSame(vs, a, b, p); }
        if OfWholeItems(p) && a.item.uuid == b.item.uuid { LinesSame(vs, a, b, p, false, a.item.uuid); }
        if p == StimulusTimeSeconds && a.item.unitId == b.item.unitId { LinesSame(vs, a, b, p, true, a.item.unitId); }
      }
    }
    if NoContradiction(vs) {
      forall k, p ensures OnlyOneOf(RowValue(vs, k, p)) {
        forall x, y | RowValue(vs, k, p)(x) && RowValue(vs, k, p)(y) ensures x == y { if x != y { RowsDiffer(vs, k, p, x, y); } }
      }
      LinesAgreeUncontradicted(vs, false, ItemTimeSeconds);
      LinesAgreeUncontradicted(vs, true, StimulusTimeSeconds);
      LinesAgreeUncontradicted(vs, false, CompetenceLevel);
    }
  }

  lemma LinesAgreeUncontradicted(vs: seq<Verdict>, unit: bool, p: Property)
    requires NoContradiction(vs) && (if unit then p == StimulusTimeSeconds else OfWholeItems(p))
    ensures LinesAgree(vs, unit, p)
  {
    forall c ensures OnlyOneOf(GivenValue(vs, unit, c, p)) {
      forall x, y | GivenValue(vs, unit, c, p)(x) && GivenValue(vs, unit, c, p)(y) ensures x == y {
        if x != y { LinesDiffer(vs, unit, c, p, x, y); }
      }
    }
  }

  lemma NoConflictExactly(setup: Setup, single: bool, vs: seq<Verdict>)
    requires ItemsOk(setup.items) && FromItems(vs, setup.items) && OfColumns(vs, setup.columns) && Gather(single, vs).Ok?
    ensures NoConflict(setup, Gather(single, vs).value.groups) <==> NoContradiction(vs)
  {
    GroupsAgreeExactly(single, vs);
    if GroupsAgree(Gather(single, vs).value.groups) {
      ScopesAgreeExactly(setup, single, vs, ItemTimeSeconds, false);
      ScopesAgreeExactly(setup, single, vs, StimulusTimeSeconds, true);
      ScopesAgreeExactly(setup, single, vs, CompetenceLevel, false);
    }
    AgreementMeans(vs);
  }

  lemma LinesOfColumns(env: Env, columns: Columns, items: seq<Item>, rows: seq<Row>)
    ensures OfColumns(LinesOf(env, columns, items, rows), columns)
  {
    var vs := LinesOf(env, columns, items, rows);
    forall v, p | v in vs && Accepted(v) && p in v.content.value.values ensures p in columns.at {
      var i :| 0 <= i < |vs| && vs[i] == v;
      AcceptedCells(env, columns, WithOccurrences(columns, rows), items, rows[i], p);
    }
  }

  /** An import goes through exactly if no line clashes with an earlier one and no two lines
      contradict each other. */
  lemma ImportsExactly(env: Env, columns: Columns, items: seq<Item>, source: Table, rows: seq<Row>)
    requires ItemsOk(items)
    ensures var vs := LinesOf(env, columns, items, rows);
      Import(env, columns, items, source, rows).Ok? <==> NoClash(Single(columns), vs) && NoContradiction(vs)
  {
    var setup, single, vs := SetupOf(env, columns, items, source, rows), Single(columns), LinesOf(env, columns, items, rows);
    VerdictsFromItems(env, columns, WithOccurrences(columns, rows), items, rows);
    LinesOfColumns(env, columns, items, rows);
    GathersExactly(single, vs);
    if Gather(single, vs).Ok? { NoConflictExactly(setup, single, vs); }
  }
}
