/** backend/src/items/item-parameter-import.pipeline.ts: from the cells of a CSV file to the item
    properties, by way of groups of lines and a list of mutations. */
module ItemParameterImport {
  import opened JsMaps
  import opened Outcomes
  import opened Sorting
  import opened Text
  import ItemRowKey

  // -------------------------------------------------------------------------- properties

  datatype Property =
    | EmpiricalDifficulty | Bista | Infit | Discrimination | SolutionRate | TextComplexity
    | ItemTimeSeconds | CompetenceLevel | StimulusTimeSeconds
    | BookletOccurrences | ItemUuid | SubId
    | Other(name: string)

  datatype Occurrence = Occurrence(booklet: string, position: Option<nat>)

  datatype Value = Num(n: real) | Txt(s: string) | Occs(occurrences: seq<Occurrence>) | Null | Foreign(id: nat)

  type Properties = map<Property, Value>

  /** The item properties of an ACP, in their order. */
  type Table = JsMap<string, Properties>

  /** The columns a file can have, in the order in which they are worked on. */
  const SCALARS: seq<Property> := [EmpiricalDifficulty, Bista, Infit, Discrimination, SolutionRate, ItemTimeSeconds, StimulusTimeSeconds]
  const TEXTS: seq<Property> := [TextComplexity, CompetenceLevel]

  predicate RowScoped(p: Property) {
    p == EmpiricalDifficulty || p == Bista || p == Infit || p == Discrimination || p == SolutionRate || p == TextComplexity
  }

  /** What the code asks of the language: `Number`, with and without a comma read as a point; a test
      on decimal places; `toUpperCase`; a collator; and the occurrences in a stored value. */
  datatype Env = Env(
    number: string -> Option<real>,
    plainNumber: string -> Option<real>,
    twoPlaces: string -> bool,
    level: string -> Option<string>,
    bookletLe: (string, string) -> bool,
    occurrencesIn: Value -> seq<Occurrence>)

  datatype Item = Item(uuid: string, itemId: string, unitId: string, unitLabel: string)

  /** What the header line says: where the columns are. */
  datatype Columns = Columns(item: nat, subId: Option<nat>, at: map<Property, nat>, booklet: Option<nat>, position: Option<nat>, requireDifficulty: bool)

  // ------------------------------------------------------------------------------ cells

  /** The quoting of a line: cells so far, the current cell, and whether it is quoted. */
  function Cells(line: string, i: nat, cells: seq<string>, current: string, quoted: bool): seq<string>
    decreases |line| - i
  {
    if i >= |line| then cells + [current]
    else if line[i] == '"' then
      if quoted && i + 1 < |line| && line[i + 1] == '"' then Cells(line, i + 2, cells, current + "\"", quoted)
      else Cells(line, i + 1, cells, current, !quoted)
    else if line[i] == ';' && !quoted then Cells(line, i + 1, cells + [current], "", quoted)
    else Cells(line, i + 1, cells, current + [line[i]], quoted)
  }

  method ParseCsvLine(line: string) returns (cells: seq<string>)
    ensures cells == Cells(line, 0, [], "", false)
  {
    var current, quoted := "", false;
    cells := [];
    var index := 0;
    while index < |line|
      invariant Cells(line, 0, [], "", false) == Cells(line, index, cells, current, quoted)
      decreases |line| - index
    {
      var character := line[index];
      if character == '"' {
        if quoted && index + 1 < |line| && line[index + 1] == '"' {
          current := current + "\"";
          index := index + 1;
        } else {
          quoted := !quoted;
        }
      } else if character == ';' && !quoted {
        cells := cells + [current];
        current := "";
      } else {
        current := current + [character];
      }
      index := index + 1;
    }
    cells := cells + [current];
  }

  type Row = seq<string>

  // A line with every cell quoted is read back.

  function Doubled(c: string): string {
    if c == [] then [] else (if c[0] == '"' then "\"\"" else [c[0]]) + Doubled(c[1..])
  }

  function PrintedLine(row: Row): string
    requires row != []
    decreases |row|, 1
  {
    ['"'] + (Doubled(row[0]) + ['"'] + AfterFirst(row))
  }

  /** What follows the first cell. */
  function AfterFirst(row: Row): string
    requires row != []
    decreases |row|, 0
  {
    if |row| == 1 then [] else [';'] + PrintedLine(row[1..])
  }

  lemma {:induction false} QuotedIsRead(line: string, i: nat, cells: seq<string>, current: string, c: string, rest: string)
    requires i <= |line| && line[i..] == Doubled(c) + ['"'] + rest && (rest == [] || rest[0] != '"')
    ensures i + |Doubled(c)| + 1 <= |line| && line[i + |Doubled(c)| + 1..] == rest
    ensures Cells(line, i, cells, current, true) == Cells(line, i + |Doubled(c)| + 1, cells, current + c, false)
    decreases |c|
  {
    if c == [] {
      assert line[i..][0] == '"' && line[i + 1..] == line[i..][1..] == rest;
      assert current + c == current;
    } else {
      var n := if c[0] == '"' then 2 else 1;
      assert Doubled(c) + ['"'] + rest == (if c[0] == '"' then ['"', '"'] else [c[0]]) + (Doubled(c[1..]) + ['"'] + rest);
      assert line[i] == line[i..][0] == c[0] && (n == 2 ==> line[i + 1] == line[i..][1] == '"');
      assert line[i + n..] == line[i..][n..] == Doubled(c[1..]) + ['"'] + rest;
      QuotedIsRead(line, i + n, cells, current + [c[0]], c[1..], rest);
      assert current + [c[0]] + c[1..] == current + c;
    }
  }

  lemma QuoteIsRead(line: string, i: nat, cells: seq<string>, current: string, rest: string)
    requires i <= |line| && line[i..] == ['"'] + rest
    ensures i + 1 <= |line| && line[i + 1..] == rest && Cells(line, i, cells, current, false) == Cells(line, i + 1, cells, current, true)
  {
    assert line[i] == line[i..][0] == '"' && line[i + 1..] == line[i..][1..] == rest;
  }

  lemma FirstCellIsRead(line: string, i: nat, cells: seq<string>, row: Row)
    requires row != [] && i <= |line| && line[i..] == PrintedLine(row)
    ensures var j := i + |Doubled(row[0])| + 2;
      j <= |line| && line[j..] == AfterFirst(row) && Cells(line, i, cells, "", false) == Cells(line, j, cells, row[0], false)
  {
    QuoteIsRead(line, i, cells, "", Doubled(row[0]) + ['"'] + AfterFirst(row));
    QuotedIsRead(line, i + 1, cells, "", row[0], AfterFirst(row));
    assert "" + row[0] == row[0];
  }

  lemma SeparatorIsRead(line: string, j: nat, cells: seq<string>, current: string, rest: string)
    requires j <= |line| && line[j..] == [';'] + rest
    ensures j + 1 <= |line| && line[j + 1..] == rest && Cells(line, j, cells, current, false) == Cells(line, j + 1, cells + [current], "", false)
  {
    assert line[j] == line[j..][0] == ';' && line[j + 1..] == line[j..][1..] == rest;
  }

  lemma {:induction false} PrintedIsRead(line: string, i: nat, cells: seq<string>, row: Row)
    requires row != [] && i <= |line| && line[i..] == PrintedLine(row)
    ensures Cells(line, i, cells, "", false) == cells + row
    decreases |row|
  {
    var j := i + |Doubled(row[0])| + 2;
    FirstCellIsRead(line, i, cells, row);
    if |row| == 1 {
      assert cells + [row[0]] == cells + row;
    } else {
      SeparatorIsRead(line, j, cells, row[0], PrintedLine(row[1..]));
      PrintedIsRead(line, j + 1, cells + [row[0]], row[1..]);
      assert cells + [row[0]] + row[1..] == cells + row;
    }
  }

  lemma {:induction false} PrintedEnds(row: Row)
    requires row != []
    ensures PrintedLine(row) != [] && PrintedLine(row)[|PrintedLine(row)| - 1] == '"'
  {
    if |row| > 1 { PrintedEnds(row[1..]); }
  }

  /** Reading a printed line gives the row back. */
  lemma PrintedLineIsRead(row: Row)
    requires row != []
    ensures Cells(Trim(PrintedLine(row)), 0, [], "", false) == row
  {
    PrintedEnds(row);
    TrimFixpoint(PrintedLine(row));
    assert PrintedLine(row)[0..] == PrintedLine(row);
    PrintedIsRead(PrintedLine(row), 0, [], row);
  }

  function Cell(row: Row, i: nat): string {
    if i < |row| then Trim(row[i]) else ""
  }

  function OptionalCell(row: Row, i: Option<nat>): string {
    if i.Some? then Cell(row, i.value) else ""
  }

  predicate Blank(row: Row) {
    forall i :: 0 <= i < |row| ==> Trim(row[i]) == ""
  }

  // ------------------------------------------------------------------------ finding an item

  predicate Alphanumeric(c: char) { 'a' <= c <= 'z' || 'A' <= c <= 'Z' || '0' <= c <= '9' }

  /** `normalizeItemReference` */
  function Reference(s: string): string {
    if s == [] then []
    else (if !Alphanumeric(s[0]) then [] else if 'A' <= s[0] <= 'Z' then [s[0] + 32 as char] else [s[0]]) + Reference(s[1..])
  }

  predicate Matches(item: Item, reference: string) {
    || Reference(item.itemId) == reference
    || Reference(item.unitId) + Reference(item.itemId) == reference
    || Reference(item.unitLabel) + Reference(item.itemId) == reference
  }

  function FindItem(items: seq<Item>, raw: string): Option<Item> {
    if items == [] then None
    else if Matches(items[0], Reference(raw)) then Some(items[0])
    else FindItem(items[1..], raw)
  }

  // -------------------------------------------------------------------------- one line

  datatype Reason = ItemMissing | NoSuchItem | InvalidValue(p: Property) | PositionWithoutBooklet | InvalidPosition

  /** The occurrence a line names; `Unasked` when occurrences are not imported. */
  datatype Mention = Unasked | Nowhere | At(occurrence: Occurrence)

  datatype Content = Content(values: map<Property, Value>, mention: Mention)

  /** What can be said of a line by itself. */
  datatype Verdict =
    | Skipped
    | Unmatched(reason: Reason)
    | Matched(item: Item, subId: string, content: Result<Content, Reason>)

  predicate Valid(env: Env, p: Property, raw: string) {
    raw == "" ||
    match p
    case TextComplexity => true
    case CompetenceLevel => env.level(raw).Some?
    case _ =>
      && env.number(raw).Some?
      && (p == Bista ==> env.twoPlaces(raw))
      && (p == ItemTimeSeconds || p == StimulusTimeSeconds ==> env.number(raw).value >= 0.0)
  }

  function ValueOf(env: Env, p: Property, raw: string): Value
    requires Valid(env, p, raw) && raw != ""
  {
    match p
    case TextComplexity => Txt(raw)
    case CompetenceLevel => Txt(env.level(raw).value)
    case _ => Num(env.number(raw).value)
  }

  /** The properties among `ps` that the file has a column for. */
  function Imported(columns: Columns, ps: seq<Property>): seq<Property> {
    if ps == [] then []
    else Imported(columns, ps[..|ps| - 1]) + if ps[|ps| - 1] in columns.at then [ps[|ps| - 1]] else []
  }

  function ColumnOf(columns: Columns, p: Property): nat {
    if p in columns.at then columns.at[p] else 0
  }

  /** The values of a line, up to the first invalid one. */
  function ReadValues(env: Env, columns: Columns, row: Row, ps: seq<Property>): Result<map<Property, Value>, Reason> {
    if ps == [] then Ok(map[])
    else
      var p := ps[|ps| - 1];
      match ReadValues(env, columns, row, ps[..|ps| - 1])
      case Err(r) => Err(r)
      case Ok(values) =>
        var raw := Cell(row, ColumnOf(columns, p));
        if !Valid(env, p, raw) then Err(InvalidValue(p))
        else Ok(if raw == "" then values else values[p := ValueOf(env, p, raw)])
  }

  method ReadColumns(env: Env, columns: Columns, row: Row, ps: seq<Property>) returns (r: Result<map<Property, Value>, Reason>)
    ensures r == ReadValues(env, columns, row, ps)
  {
    var values: map<Property, Value> := map[];
    for i := 0 to |ps|
      invariant ReadValues(env, columns, row, ps[..i]) == Ok(values)
    {
      assert ps[..i + 1][..i] == ps[..i];
      var raw := Cell(row, ColumnOf(columns, ps[i]));
      if raw == "" { continue; }
      if !Valid(env, ps[i], raw) {
        Stays(env, columns, row, ps, i + 1);
        return Err(InvalidValue(ps[i]));
      }
      values := values[ps[i] := ValueOf(env, ps[i], raw)];
    }
    assert ps[..|ps|] == ps;
    return Ok(values);
  }

  lemma {:induction false} Stays(env: Env, columns: Columns, row: Row, ps: seq<Property>, i: nat)
    requires i <= |ps| && ReadValues(env, columns, row, ps[..i]).Err?
    ensures ReadValues(env, columns, row, ps) == ReadValues(env, columns, row, ps[..i])
    decreases |ps| - i
  {
    if i < |ps| {
      assert ps[..i + 1][..i] == ps[..i];
      Stays(env, columns, row, ps, i + 1);
    } else {
      assert ps[..i] == ps;
    }
  }

  /** A line has a value of a property exactly if the cell is not blank; the value is that of the cell. */
  lemma {:induction false} ReadExactly(env: Env, columns: Columns, row: Row, ps: seq<Property>, p: Property)
    requires ReadValues(env, columns, row, ps).Ok?
    ensures var values, raw := ReadValues(env, columns, row, ps).value, Cell(row, ColumnOf(columns, p));
      && (p in values <==> p in ps && raw != "")
      && (p in ps ==> Valid(env, p, raw) && (raw != "" ==> values[p] == ValueOf(env, p, raw)))
  {
    if ps != [] {
      ReadExactly(env, columns, row, ps[..|ps| - 1], p);
      assert ps == ps[..|ps| - 1] + [ps[|ps| - 1]];
    }
  }

  /** A line is read if all its cells are valid. */
  lemma {:induction false} ReadsValid(env: Env, columns: Columns, row: Row, ps: seq<Property>)
    requires forall p :: p in ps ==> Valid(env, p, Cell(row, ColumnOf(columns, p)))
    ensures ReadValues(env, columns, row, ps).Ok?
  {
    if ps != [] {
      forall p | p in ps[..|ps| - 1] ensures p in ps { }
      assert ps[|ps| - 1] in ps;
      ReadsValid(env, columns, row, ps[..|ps| - 1]);
    }
  }

  /** Scalars and texts are read one after the other; of two reasons the later one is given. */
  function BothRead(scalars: Result<map<Property, Value>, Reason>, texts: Result<map<Property, Value>, Reason>): Result<map<Property, Value>, Reason> {
    if texts.Err? then texts else if scalars.Err? then scalars else Ok(scalars.value + texts.value)
  }

  /** `parseOccurrence`, as far as the line alone decides. */
  function MentionOf(env: Env, columns: Columns, withOccurrences: bool, row: Row): Result<Mention, Reason> {
    var booklet, position := OptionalCell(row, columns.booklet), OptionalCell(row, columns.position);
    if !withOccurrences then Ok(Unasked)
    else if booklet == "" && position == "" then Ok(Nowhere)
    else if booklet == "" then Err(PositionWithoutBooklet)
    else if position == "" then Ok(At(Occurrence(booklet, None)))
    else
      match env.plainNumber(position)
      case None => Err(InvalidPosition)
      case Some(x) => if x == x.Floor as real && x > 0.0 then Ok(At(Occurrence(booklet, Some(x.Floor)))) else Err(InvalidPosition)
  }

  function ContentOf(env: Env, columns: Columns, withOccurrences: bool, row: Row): Result<Content, Reason> {
    match BothRead(ReadValues(env, columns, row, Imported(columns, SCALARS)), ReadValues(env, columns, row, Imported(columns, TEXTS)))
    case Err(r) => Err(r)
    case Ok(values) =>
      match MentionOf(env, columns, withOccurrences, row)
      case Err(r) => Err(r)
      case Ok(m) => Ok(Content(values, m))
  }

  function VerdictOf(env: Env, columns: Columns, withOccurrences: bool, items: seq<Item>, row: Row): Verdict {
    var raw := Cell(row, columns.item);
    if Blank(row) then Skipped
    else if raw == "" then Unmatched(ItemMissing)
    else if columns.requireDifficulty && env.number(Cell(row, ColumnOf(columns, EmpiricalDifficulty))) == None then Skipped
    else
      match FindItem(items, raw)
      case None => Unmatched(NoSuchItem)
      case Some(item) => Matched(item, OptionalCell(row, columns.subId), ContentOf(env, columns, withOccurrences, row))
  }

  // ------------------------------------------------------------------------------ groups

  function RowKeyOf(v: Verdict): string
    requires v.Matched?
  {
    ItemRowKey.BuildItemRowKey(v.item.uuid, v.subId)
  }

  predicate Accepted(v: Verdict) { v.Matched? && v.content.Ok? }

  datatype Group = Group(uuid: string, unitId: string, subId: string, values: map<Property, seq<Value>>, occurrences: seq<Occurrence>, mentionsNowhere: bool)

  datatype Conflict =
    | RepeatedLine(key: string) | RepeatedNowhere(key: string) | RepeatedOccurrence(key: string, occurrence: Occurrence)
    | MixedForms(uuid: string) | DifferentValues | DifferentScopedValues(p: Property)

  datatype Gathering = Gathering(groups: JsMap<string, Group>, partial: map<string, bool>, failed: seq<Reason>)

  const NOTHING_GATHERED := Gathering(EmptyMap(), map[], [])

  /** The values collected for a property, each once. */
  function Values(g: Group, p: Property): seq<Value> { if p in g.values then g.values[p] else [] }

  function Add(s: seq<Value>, x: Value): seq<Value> { if x in s then s else s + [x] }

  function With(values: map<Property, seq<Value>>, line: map<Property, Value>): map<Property, seq<Value>> {
    map p | p in values.Keys + line.Keys ::
      var earlier := if p in values then values[p] else [];
      if p in line then Add(earlier, line[p]) else earlier
  }

  function GroupAt(groups: JsMap<string, Group>, v: Verdict): Group
    requires v.Matched?
  {
    if groups.Has(RowKeyOf(v)) then groups.at[RowKeyOf(v)] else Group(v.item.uuid, v.item.unitId, v.subId, map[], [], false)
  }

  function Extended(g: Group, c: Content): Group {
    g.(values := With(g.values, c.values),
       occurrences := if c.mention.At? then g.occurrences + [c.mention.occurrence] else g.occurrences,
       mentionsNowhere := g.mentionsNowhere || c.mention.Nowhere?)
  }

  /** One turn of the loop over the lines; `single`: without booklet and position columns an item
      row may be named by one line only. */
  function Take(single: bool, s: Gathering, v: Verdict): Result<Gathering, Conflict> {
    match v
    case Skipped => Ok(s)
    case Unmatched(reason) => Ok(s.(failed := s.failed + [reason]))
    case Matched(item, subId, content) =>
      var key, g := RowKeyOf(v), GroupAt(s.groups, v);
      if single && s.groups.Has(key) then Err(RepeatedLine(key))
      else
        match content
        case Err(reason) => Ok(s.(failed := s.failed + [reason]))
        case Ok(c) =>
          if c.mention.Nowhere? && g.mentionsNowhere then Err(RepeatedNowhere(key))
          else if c.mention.At? && c.mention.occurrence in g.occurrences then Err(RepeatedOccurrence(key, c.mention.occurrence))
          else if item.uuid in s.partial && s.partial[item.uuid] != (subId != "") then Err(MixedForms(item.uuid))
          else Ok(Gathering(s.groups.Put(key, Extended(g, c)), s.partial[item.uuid := subId != ""], s.failed))
  }

  function Gather(single: bool, vs: seq<Verdict>): Result<Gathering, Conflict> {
    if vs == [] then Ok(NOTHING_GATHERED)
    else
      match Gather(single, vs[..|vs| - 1])
      case Err(e) => Err(e)
      case Ok(s) => Take(single, s, vs[|vs| - 1])
  }

  // --------------------------------------------------------- what the groups say of the lines

  ghost predicate OfRow(v: Verdict, k: string) { Accepted(v) && RowKeyOf(v) == k }

  ghost predicate Carries(v: Verdict, k: string, p: Property, x: Value) {
    OfRow(v, k) && p in v.content.value.values && v.content.value.values[p] == x
  }

  ghost predicate Places(v: Verdict, k: string, o: Occurrence) {
    OfRow(v, k) && v.content.value.mention == At(o)
  }

  ghost predicate HasRow(vs: seq<Verdict>, k: string) { exists v :: v in vs && OfRow(v, k) }

  ghost predicate HasValue(vs: seq<Verdict>, k: string, p: Property, x: Value) { exists v :: v in vs && Carries(v, k, p, x) }

  ghost predicate HasPlace(vs: seq<Verdict>, k: string, o: Occurrence) { exists v :: v in vs && Places(v, k, o) }

  lemma InPrefix(vs: seq<Verdict>, v: Verdict)
    requires vs != []
    ensures v in vs <==> v in vs[..|vs| - 1] || v == vs[|vs| - 1]
  {
    assert vs == vs[..|vs| - 1] + [vs[|vs| - 1]];
  }

  lemma Prefixes(vs: seq<Verdict>, k: string, p: Property, x: Value, o: Occurrence)
    requires vs != []
    ensures HasRow(vs, k) <==> HasRow(vs[..|vs| - 1], k) || OfRow(vs[|vs| - 1], k)
    ensures HasValue(vs, k, p, x) <==> HasValue(vs[..|vs| - 1], k, p, x) || Carries(vs[|vs| - 1], k, p, x)
    ensures HasPlace(vs, k, o) <==> HasPlace(vs[..|vs| - 1], k, o) || Places(vs[|vs| - 1], k, o)
  {
    assert forall v :: v in vs <==> v in vs[..|vs| - 1] || v == vs[|vs| - 1] by {
      forall v ensures v in vs <==> v in vs[..|vs| - 1] || v == vs[|vs| - 1] { InPrefix(vs, v); }
    }
  }

  lemma {:induction false} GroupKeys(single: bool, vs: seq<Verdict>, k: string)
    requires Gather(single, vs).Ok?
    ensures Gather(single, vs).value.groups.Valid()
    ensures Gather(single, vs).value.groups.Has(k) <==> HasRow(vs, k)
  {
    if vs != [] {
      GroupKeys(single, vs[..|vs| - 1], k);
      Prefixes(vs, k, Bista, Null, Occurrence("", None));
    }
  }

  /** What one turn does to the group of a row. */
  lemma TakenGroup(single: bool, s: Gathering, v: Verdict, k: string)
    requires Take(single, s, v).Ok? && Take(single, s, v).value.groups.Has(k)
    ensures var s' := Take(single, s, v).value;
      if OfRow(v, k) then s'.groups.at[k] == Extended(GroupAt(s.groups, v), v.content.value)
      else s.groups.Has(k) && s'.groups.at[k] == s.groups.at[k]
    ensures OfRow(v, k) && v.content.value.mention.At? ==> v.content.value.mention.occurrence !in GroupAt(s.groups, v).occurrences
  {
  }

  lemma {:induction false} GroupValues(single: bool, vs: seq<Verdict>, k: string, p: Property, x: Value)
    requires Gather(single, vs).Ok? && Gather(single, vs).value.groups.Has(k)
    ensures x in Values(Gather(single, vs).value.groups.at[k], p) <==> HasValue(vs, k, p, x)
  {
    var rest, v := vs[..|vs| - 1], vs[|vs| - 1];
    var s := Gather(single, rest).value;
    PrefixValue(vs, k, p, x);
    TakenGroup(single, s, v, k);
    if s.groups.Has(k) {
      GroupValues(single, rest, k, p, x);
    } else {
      NoValues(single, rest, k, p, x);
    }
    if OfRow(v, k) {
      var g := GroupAt(s.groups, v);
      WithOne(g, v.content.value, p, x);
      assert x in Values(g, p) <==> HasValue(rest, k, p, x);
    }
  }

  lemma PrefixValue(vs: seq<Verdict>, k: string, p: Property, x: Value)
    requires vs != []
    ensures HasValue(vs, k, p, x) <==> HasValue(vs[..|vs| - 1], k, p, x) || Carries(vs[|vs| - 1], k, p, x)
  {
    Prefixes(vs, k, p, x, Occurrence("", None));
  }

  lemma WithOne(g: Group, c: Content, p: Property, x: Value)
    ensures x in Values(Extended(g, c), p) <==> x in Values(g, p) || (p in c.values && c.values[p] == x)
  {
  }

  lemma NoValues(single: bool, vs: seq<Verdict>, k: string, p: Property, x: Value)
    requires Gather(single, vs).Ok? && !Gather(single, vs).value.groups.Has(k)
    ensures !HasValue(vs, k, p, x) && forall o :: !HasPlace(vs, k, o)
  {
    GroupKeys(single, vs, k);
    assert forall v :: v in vs ==> !OfRow(v, k);
  }

  lemma {:induction false} GroupPlaces(single: bool, vs: seq<Verdict>, k: string, o: Occurrence)
    requires Gather(single, vs).Ok? && Gather(single, vs).value.groups.Has(k)
    ensures var g := Gather(single, vs).value.groups.at[k];
      Distinct(g.occurrences) && (o in g.occurrences <==> HasPlace(vs, k, o))
  {
    var rest, v := vs[..|vs| - 1], vs[|vs| - 1];
    var s := Gather(single, rest).value;
    Prefixes(vs, k, Bista, Null, o);
    TakenGroup(single, s, v, k);
    if s.groups.Has(k) {
      GroupPlaces(single, rest, k, o);
    } else {
      NoValues(single, rest, k, Bista, Null);
    }
    if OfRow(v, k) { ExtendedPlaces(GroupAt(s.groups, v), v.content.value, o); }
  }

  lemma ExtendedPlaces(g: Group, c: Content, o: Occurrence)
    requires Distinct(g.occurrences) && (c.mention.At? ==> c.mention.occurrence !in g.occurrences)
    ensures Distinct(Extended(g, c).occurrences)
    ensures o in Extended(g, c).occurrences <==> o in g.occurrences || c.mention == At(o)
  {
  }

  /** A line of each group. */
  lemma {:induction false} GroupLine(single: bool, vs: seq<Verdict>, k: string) returns (v: Verdict)
    requires Gather(single, vs).Ok? && Gather(single, vs).value.groups.Has(k)
    ensures var g := Gather(single, vs).value.groups.at[k];
      v in vs && OfRow(v, k) && g.uuid == v.item.uuid && g.unitId == v.item.unitId && g.subId == v.subId
  {
    var rest := vs[..|vs| - 1];
    if Gather(single, rest).value.groups.Has(k) {
      v := GroupLine(single, rest, k);
    } else {
      v := vs[|vs| - 1];
    }
  }

  /** Accepted lines name each item in one form only. */
  lemma {:induction false} OneForm(single: bool, vs: seq<Verdict>, v: Verdict)
    requires Gather(single, vs).Ok? && v in vs && Accepted(v)
    ensures var partial := Gather(single, vs).value.partial;
      v.item.uuid in partial && partial[v.item.uuid] == (v.subId != "")
  {
    InPrefix(vs, v);
    if v in vs[..|vs| - 1] { OneForm(single, vs[..|vs| - 1], v); }
  }

  /** The same lines in another order. */
  ghost predicate SameLines(a: seq<Verdict>, b: seq<Verdict>) { forall v :: v in a <==> v in b }

  /** Booklets by the collator; no position comes after all positions. */
  function OccurrenceLe(env: Env): (Occurrence, Occurrence) -> bool {
    (a: Occurrence, b: Occurrence) =>
      if !(env.bookletLe(a.booklet, b.booklet) && env.bookletLe(b.booklet, a.booklet)) then env.bookletLe(a.booklet, b.booklet)
      else if b.position == None then true
      else a.position.Some? && a.position.value <= b.position.value
  }

  /** A collator that tells all booklets apart. */
  ghost predicate StrictOrder(env: Env) { TotalPreorder(env.bookletLe) && Antisymmetric(env.bookletLe) }

  lemma OccurrencesAreOrdered(env: Env)
    requires StrictOrder(env)
    ensures TotalPreorder(OccurrenceLe(env)) && Antisymmetric(OccurrenceLe(env))
  {
    var le, collator := OccurrenceLe(env), env.bookletLe;
    forall a: Occurrence, b: Occurrence ensures le(a, b) || le(b, a) {
      assert collator(a.booklet, b.booklet) || collator(b.booklet, a.booklet);
    }
    forall a: Occurrence, b: Occurrence | le(a, b) && le(b, a) ensures a == b {
      assert collator(a.booklet, b.booklet) || collator(b.booklet, a.booklet);
    }
    forall a: Occurrence, b: Occurrence, c: Occurrence | le(a, b) && le(b, c) ensures le(a, c) {
      assert collator(a.booklet, b.booklet) && collator(b.booklet, c.booklet);
      assert collator(a.booklet, c.booklet);
    }
  }

  lemma SameMembers<T>(a: seq<T>, b: seq<T>)
    requires Distinct(a) && Distinct(b) && forall x :: x in a <==> x in b
    ensures multiset(a) == multiset(b)
  {
    forall x ensures multiset(a)[x] == multiset(b)[x] {
      OnceIfDistinct(a, x);
      OnceIfDistinct(b, x);
      assert x in multiset(a) <==> x in a;
      assert x in multiset(b) <==> x in b;
    }
  }
}
