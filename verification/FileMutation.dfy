/** backend/src/files/file-mutation.service.ts: which files of an upload are stored, and what becomes
    of the table of files. */
module FileMutation {
  import opened JsMaps
  import opened Outcomes
  import opened Text

  datatype Strategy = Reject | Overwrite | KeepBoth

  datatype File = File(name: string, content: nat)

  /** A row of the table of files; `path` is where its blob is stored, and identifies the row. */
  datatype Record = Record(name: string, path: string, content: nat)

  datatype Refusal = NoFiles | NameMissing | Conflict | Failed

  /** `normalizeFileName`; `lower` is `toLowerCase`. */
  function Key(lower: string -> string, name: string): string { lower(Trim(name)) }

  predicate NamedBy(lower: string -> string, files: seq<File>, key: string) {
    exists i :: 0 <= i < |files| && Key(lower, files[i].name) == key
  }

  predicate Clashes(lower: string -> string, files: seq<File>, r: Record) {
    Key(lower, r.name) != "" && NamedBy(lower, files, Key(lower, r.name))
  }

  // ------------------------------------------------------------------ what is to be stored

  function ByName(lower: string -> string, files: seq<File>): JsMap<string, File> {
    if files == [] then EmptyMap()
    else ByName(lower, files[..|files| - 1]).Put(Key(lower, files[|files| - 1].name), files[|files| - 1])
  }

  function ValuesOf<V>(m: JsMap<string, V>): seq<V>
    requires m.Valid()
  {
    seq(|m.order|, i requires 0 <= i < |m.order| => m.at[m.order[i]])
  }

  lemma {:induction false} ByNameValid(lower: string -> string, files: seq<File>)
    ensures ByName(lower, files).Valid()
  {
    if files != [] {
      ByNameValid(lower, files[..|files| - 1]);
      PutValid(ByName(lower, files[..|files| - 1]), Key(lower, files[|files| - 1].name), files[|files| - 1]);
    }
  }

  /** The last of the files with this name. */
  function LastNamed(lower: string -> string, files: seq<File>, key: string): Option<File> {
    if files == [] then None
    else if Key(lower, files[|files| - 1].name) == key then Some(files[|files| - 1])
    else LastNamed(lower, files[..|files| - 1], key)
  }

  lemma {:induction false} ByNameHoldsTheLast(lower: string -> string, files: seq<File>, key: string)
    ensures Get(ByName(lower, files).at, key) == LastNamed(lower, files, key)
    ensures LastNamed(lower, files, key).Some? ==> Key(lower, LastNamed(lower, files, key).value.name) == key
    ensures LastNamed(lower, files, key).Some? <==> NamedBy(lower, files, key)
  {
    if files != [] {
      ByNameHoldsTheLast(lower, files[..|files| - 1], key);
      assert forall i :: 0 <= i < |files| - 1 ==> files[..|files| - 1][i] == files[i];
    }
  }

  predicate AllNamed(lower: string -> string, files: seq<File>) {
    forall i :: 0 <= i < |files| ==> Key(lower, files[i].name) != ""
  }

  predicate DistinctNames(lower: string -> string, files: seq<File>) {
    forall i, j :: 0 <= i < j < |files| ==> Key(lower, files[i].name) != Key(lower, files[j].name)
  }

  /** `resolveIncomingFiles` */
  function Incoming(lower: string -> string, files: seq<File>, strategy: Strategy): Result<seq<File>, Refusal> {
    if !AllNamed(lower, files) then Err(NameMissing)
    else if strategy == Reject && !DistinctNames(lower, files) then Err(Conflict)
    else if strategy == Overwrite then
      ByNameValid(lower, files);
      Ok(ValuesOf(ByName(lower, files)))
    else Ok(files)
  }

  method ResolveIncomingFiles(lower: string -> string, files: seq<File>, strategy: Strategy) returns (r: Result<seq<File>, Refusal>)
    ensures r == Incoming(lower, files, strategy)
  {
    var byName: JsMap<string, File> := EmptyMap();
    var duplicates := false;
    for i := 0 to |files|
      invariant byName == ByName(lower, files[..i]) && byName.Valid()
      invariant AllNamed(lower, files[..i]) && (duplicates <==> !DistinctNames(lower, files[..i]))
    {
      var key := Key(lower, files[i].name);
      if key == "" { return Err(NameMissing); }
      ResolveOneMore(lower, files, i);
      if byName.Has(key) { duplicates := true; }
      PutValid(byName, key, files[i]);
      byName := byName.Put(key, files[i]);
    }
    assert files[..|files|] == files;
    if strategy == Reject && duplicates { return Err(Conflict); }
    if strategy == Overwrite { return Ok(ValuesOf(byName)); }
    return Ok(files);
  }

  lemma ResolveOneMore(lower: string -> string, files: seq<File>, i: nat)
    requires i < |files|
    ensures var key := Key(lower, files[i].name);
      && ByName(lower, files[..i + 1]) == ByName(lower, files[..i]).Put(key, files[i])
      && (DistinctNames(lower, files[..i + 1]) <==> DistinctNames(lower, files[..i]) && !ByName(lower, files[..i]).Has(key))
      && (AllNamed(lower, files[..i + 1]) <==> AllNamed(lower, files[..i]) && key != "")
  {
    var key := Key(lower, files[i].name);
    assert files[..i + 1] == files[..i] + [files[i]] && files[..i + 1][..i] == files[..i];
    ByNameHoldsTheLast(lower, files[..i], key);
    OneMoreName(lower, files[..i], files[i]);
  }

  lemma OneMoreName(lower: string -> string, files: seq<File>, f: File)
    ensures DistinctNames(lower, files + [f]) <==> DistinctNames(lower, files) && !NamedBy(lower, files, Key(lower, f.name))
  {
    var all := files + [f];
    assert forall i :: 0 <= i < |files| ==> all[i] == files[i];
    assert all[|files|] == f;
  }

  /** With "overwrite" the last file of each name is kept, and nothing else. */
  lemma OverwriteKeepsTheLast(lower: string -> string, files: seq<File>, key: string)
    requires Incoming(lower, files, Overwrite).Ok?
    ensures var kept := Incoming(lower, files, Overwrite).value;
      && DistinctNames(lower, kept)
      && (NamedBy(lower, kept, key) <==> NamedBy(lower, files, key))
      && (forall i :: 0 <= i < |kept| && Key(lower, kept[i].name) == key ==> Some(kept[i]) == LastNamed(lower, files, key))
  {
    var m := ByName(lower, files);
    ByNameValid(lower, files);
    var kept := ValuesOf(m);
    forall i | 0 <= i < |kept| ensures Key(lower, kept[i].name) == m.order[i] {
      ByNameHoldsTheLast(lower, files, m.order[i]);
    }
    ByNameHoldsTheLast(lower, files, key);
    if NamedBy(lower, files, key) {
      var i :| 0 <= i < |m.order| && m.order[i] == key;
      assert Key(lower, kept[i].name) == key;
    }
  }

  /** Files are refused exactly if one has no name, or if two have one name and nothing may be replaced;
      but for an overwrite all files that are not refused are stored, in their order. */
  lemma IncomingExactly(lower: string -> string, files: seq<File>, strategy: Strategy)
    ensures var r := Incoming(lower, files, strategy);
      && (r.Ok? <==> AllNamed(lower, files) && (strategy == Reject ==> DistinctNames(lower, files)))
      && (r == Err(NameMissing) <==> !AllNamed(lower, files))
      && (r.Ok? && (strategy != Overwrite || DistinctNames(lower, files)) ==> r.value == files)
  {
    if AllNamed(lower, files) && strategy == Overwrite && DistinctNames(lower, files) { DistinctAreKept(lower, files); }
  }

  lemma {:induction false} DistinctAreKept(lower: string -> string, files: seq<File>)
    requires DistinctNames(lower, files)
    ensures ByName(lower, files).Valid() && ValuesOf(ByName(lower, files)) == files
  {
    ByNameValid(lower, files);
    if files != [] {
      var n := |files| - 1;
      var before, key := ByName(lower, files[..n]), Key(lower, files[n].name);
      DistinctAreKept(lower, files[..n]);
      assert files == files[..n] + [files[n]];
      OneMoreName(lower, files[..n], files[n]);
      ByNameHoldsTheLast(lower, files[..n], key);
      assert !before.Has(key);
      AddedValue(before, key, files[n]);
    }
  }

  lemma AddedValue<V>(m: JsMap<string, V>, k: string, v: V)
    requires m.Valid() && !m.Has(k)
    ensures m.Put(k, v).Valid() && ValuesOf(m.Put(k, v)) == ValuesOf(m) + [v]
  {
    PutValid(m, k, v);
    forall i | 0 <= i < |m.order| ensures m.order[i] != k { assert m.order[i] in m.order; }
  }

  // -------------------------------------------------------------------------- the table

  function Kept(lower: string -> string, records: seq<Record>, files: seq<File>): seq<Record> {
    if records == [] then []
    else Kept(lower, records[..|records| - 1], files) + if Clashes(lower, files, records[|records| - 1]) then [] else [records[|records| - 1]]
  }

  function Replaced(lower: string -> string, records: seq<Record>, files: seq<File>): seq<Record> {
    if records == [] then []
    else Replaced(lower, records[..|records| - 1], files) + if Clashes(lower, files, records[|records| - 1]) then [records[|records| - 1]] else []
  }

  lemma {:induction false} KeptOrReplaced(lower: string -> string, records: seq<Record>, files: seq<File>, r: Record)
    ensures r in Kept(lower, records, files) <==> r in records && !Clashes(lower, files, r)
    ensures r in Replaced(lower, records, files) <==> r in records && Clashes(lower, files, r)
  {
    if records != [] {
      KeptOrReplaced(lower, records[..|records| - 1], files, r);
      assert records == records[..|records| - 1] + [records[|records| - 1]];
    }
  }

  ghost predicate DistinctPaths(records: seq<Record>) {
    forall i, j :: 0 <= i < j < |records| ==> records[i].path != records[j].path
  }

  function PathSet(records: seq<Record>): set<string> { set r | r in records :: r.path }

  lemma SamePathSameRow(records: seq<Record>, r: Record, q: Record)
    requires DistinctPaths(records) && r in records && q in records && r.path == q.path
    ensures r == q
  {
    var i :| 0 <= i < |records| && records[i] == r;
    var j :| 0 <= j < |records| && records[j] == q;
    assert i == j;
  }

  lemma {:induction false} KeptDistinct(lower: string -> string, records: seq<Record>, files: seq<File>)
    requires DistinctPaths(records)
    ensures DistinctPaths(Kept(lower, records, files))
  {
    if records != [] {
      var n := |records| - 1;
      KeptDistinct(lower, records[..n], files);
      forall r | r in Kept(lower, records[..n], files) ensures r.path != records[n].path {
        KeptOrReplaced(lower, records[..n], files, r);
        var i :| 0 <= i < n && records[..n][i] == r;
        assert records[i].path != records[n].path;
      }
    }
  }

  /** The transaction: `None` if existing names forbid it. */
  function Stored(lower: string -> string, records: seq<Record>, files: seq<File>, strategy: Strategy, staged: seq<Record>): Option<seq<Record>> {
    match strategy
    case Reject => if exists r :: r in records && Clashes(lower, files, r) then None else Some(records + staged)
    case Overwrite => Some(Kept(lower, records, files) + staged)
    case KeepBoth => Some(records + staged)
  }

  /** The paths of the rows that the transaction removes. */
  function Superseded(lower: string -> string, records: seq<Record>, files: seq<File>, strategy: Strategy): set<string> {
    if strategy == Overwrite then PathSet(Replaced(lower, records, files)) else {}
  }

  /** Nothing is stored exactly if existing files are in the way and may not be replaced. Otherwise the
      new rows come behind the old ones, of which an overwrite leaves out those with an incoming name. */
  lemma StoredExactly(lower: string -> string, records: seq<Record>, files: seq<File>, strategy: Strategy, staged: seq<Record>, r: Record)
    ensures var next := Stored(lower, records, files, strategy, staged);
      && (next == None <==> strategy == Reject && exists q :: q in records && Clashes(lower, files, q))
      && (next.Some? && strategy != Overwrite ==> next.value == records + staged)
      && (next.Some? ==> (r in next.value <==> r in staged || (r in records && (strategy == Overwrite ==> !Clashes(lower, files, r)))))
  {
    KeptOrReplaced(lower, records, files, r);
  }

  // ---------------------------------------------------------------- grouping and collecting

  function WithName(lower: string -> string, records: seq<Record>, key: string): seq<Record> {
    if records == [] then []
    else WithName(lower, records[..|records| - 1], key) + if Key(lower, records[|records| - 1].name) == key then [records[|records| - 1]] else []
  }

  lemma {:induction false} WithNameHolds(lower: string -> string, records: seq<Record>, key: string, r: Record)
    ensures r in WithName(lower, records, key) <==> r in records && Key(lower, r.name) == key
  {
    if records != [] {
      WithNameHolds(lower, records[..|records| - 1], key, r);
      assert records == records[..|records| - 1] + [records[|records| - 1]];
    }
  }

  function RowsAt(grouped: map<string, seq<Record>>, key: string): seq<Record> {
    if key in grouped then grouped[key] else []
  }

  /** The rows by name, rows without a name left out. */
  ghost predicate Groups(lower: string -> string, grouped: map<string, seq<Record>>, records: seq<Record>) {
    && "" !in grouped
    && (forall key :: key in grouped ==> grouped[key] != [])
    && (forall key :: key != "" ==> RowsAt(grouped, key) == WithName(lower, records, key))
  }

  lemma GroupOneMore(lower: string -> string, grouped: map<string, seq<Record>>, records: seq<Record>, i: nat)
    requires i < |records| && Groups(lower, grouped, records[..i])
    ensures var key := Key(lower, records[i].name);
      Groups(lower, if key == "" then grouped else grouped[key := RowsAt(grouped, key) + [records[i]]], records[..i + 1])
  {
    var key := Key(lower, records[i].name);
    var next := if key == "" then grouped else grouped[key := RowsAt(grouped, key) + [records[i]]];
    assert records[..i + 1][..i] == records[..i];
    forall k | k != "" ensures RowsAt(next, k) == WithName(lower, records[..i + 1], k) {
      assert RowsAt(grouped, k) == WithName(lower, records[..i], k);
    }
  }

  method GroupByNormalizedName(lower: string -> string, records: seq<Record>) returns (grouped: map<string, seq<Record>>)
    ensures Groups(lower, grouped, records)
  {
    grouped := map[];
    for i := 0 to |records|
      invariant Groups(lower, grouped, records[..i])
    {
      GroupOneMore(lower, grouped, records, i);
      var key := Key(lower, records[i].name);
      if key == "" { continue; }
      grouped := grouped[key := RowsAt(grouped, key) + [records[i]]];
    }
    assert records[..|records|] == records;
  }

  /** A name that is grouped is the name of a row. */
  lemma GroupedName(lower: string -> string, grouped: map<string, seq<Record>>, records: seq<Record>, key: string)
    requires Groups(lower, grouped, records)
    ensures key in grouped <==> key != "" && exists r :: r in records && Key(lower, r.name) == key
  {
    if key in grouped {
      var r := grouped[key][0];
      assert RowsAt(grouped, key) == WithName(lower, records, key);
      WithNameHolds(lower, records, key, r);
    }
    if key != "" {
      if r :| r in records && Key(lower, r.name) == key {
        WithNameHolds(lower, records, key, r);
        assert r in RowsAt(grouped, key);
      }
    }
  }

  /** `assertNoRejectedConflicts` */
  method HasConflicts(lower: string -> string, files: seq<File>, existingByName: map<string, seq<Record>>, ghost records: seq<Record>) returns (conflict: bool)
    requires Groups(lower, existingByName, records)
    ensures conflict <==> exists r :: r in records && Clashes(lower, files, r)
  {
    conflict := false;
    for i := 0 to |files|
      invariant conflict <==> exists j :: 0 <= j < i && Key(lower, files[j].name) in existingByName
    {
      if Key(lower, files[i].name) in existingByName { conflict := true; }
    }
    ConflictExactly(lower, files, existingByName, records);
  }

  lemma ConflictExactly(lower: string -> string, files: seq<File>, existingByName: map<string, seq<Record>>, records: seq<Record>)
    requires Groups(lower, existingByName, records)
    ensures (exists j :: 0 <= j < |files| && Key(lower, files[j].name) in existingByName) <==> exists r :: r in records && Clashes(lower, files, r)
  {
    if j :| 0 <= j < |files| && Key(lower, files[j].name) in existingByName {
      GroupedName(lower, existingByName, records, Key(lower, files[j].name));
      var r :| r in records && Key(lower, r.name) == Key(lower, files[j].name);
      assert Clashes(lower, files, r);
    }
    if r :| r in records && Clashes(lower, files, r) {
      var j :| 0 <= j < |files| && Key(lower, files[j].name) == Key(lower, r.name);
      GroupedName(lower, existingByName, records, Key(lower, files[j].name));
      assert Key(lower, files[j].name) in existingByName;
    }
  }

  ghost predicate Holds(m: JsMap<string, Record>, r: Record) { m.Has(r.path) && m.at[r.path] == r }

  /** The map holds the rows that one of the first files replaces, and the first ones of a group. */
  ghost predicate Matched(lower: string -> string, m: JsMap<string, Record>, records: seq<Record>, files: seq<File>, group: seq<Record>) {
    && m.Valid()
    && (forall k :: m.Has(k) ==> m.at[k].path == k)
    && (forall r :: Holds(m, r) <==> r in records && (Clashes(lower, files, r) || r in group))
  }

  lemma OneMoreMatch(lower: string -> string, m: JsMap<string, Record>, records: seq<Record>, files: seq<File>, group: seq<Record>, q: Record)
    requires Matched(lower, m, records, files, group) && DistinctPaths(records) && q in records
    ensures Matched(lower, m.Put(q.path, q), records, files, group + [q])
  {
    var next := m.Put(q.path, q);
    PutValid(m, q.path, q);
    forall r ensures Holds(next, r) <==> r in records && (Clashes(lower, files, r) || r in group + [q]) {
      if r.path == q.path && r in records { SamePathSameRow(records, r, q); }
    }
  }

  /** All rows of the group of a file have been matched. */
  lemma OneMoreFile(lower: string -> string, m: JsMap<string, Record>, records: seq<Record>, files: seq<File>, i: nat, grouped: map<string, seq<Record>>)
    requires i < |files| && Groups(lower, grouped, records)
    requires Matched(lower, m, records, files[..i], RowsAt(grouped, Key(lower, files[i].name)))
    ensures Matched(lower, m, records, files[..i + 1], [])
  {
    var key := Key(lower, files[i].name);
    forall r ensures Clashes(lower, files[..i + 1], r) <==> Clashes(lower, files[..i], r) || (key != "" && Key(lower, r.name) == key) {
      assert files[..i + 1] == files[..i] + [files[i]];
      NamedOneMore(lower, files[..i], files[i], Key(lower, r.name));
    }
    forall r | r in records ensures r in RowsAt(grouped, key) <==> key != "" && Key(lower, r.name) == key {
      if key != "" { WithNameHolds(lower, records, key, r); }
    }
  }

  lemma NamedOneMore(lower: string -> string, files: seq<File>, f: File, key: string)
    ensures NamedBy(lower, files + [f], key) <==> NamedBy(lower, files, key) || Key(lower, f.name) == key
  {
    var all := files + [f];
    assert forall i :: 0 <= i < |files| ==> all[i] == files[i];
    assert all[|files|] == f;
  }

  lemma MatchedValues(lower: string -> string, m: JsMap<string, Record>, records: seq<Record>, files: seq<File>)
    requires Matched(lower, m, records, files, []) && DistinctPaths(records)
    ensures DistinctPaths(ValuesOf(m))
    ensures forall r :: r in ValuesOf(m) <==> r in Replaced(lower, records, files)
  {
    var values := ValuesOf(m);
    forall r ensures r in values <==> r in Replaced(lower, records, files) {
      KeptOrReplaced(lower, records, files, r);
      if r in values {
        var i :| 0 <= i < |values| && values[i] == r;
        assert m.order[i] in m.order;
        assert Holds(m, r);
      }
      if Holds(m, r) {
        var i :| 0 <= i < |m.order| && m.order[i] == r.path;
        assert values[i] == r;
      }
    }
  }

  /** The inner loop of `collectOverwriteMatches`. */
  method MatchGroup(lower: string -> string, before: JsMap<string, Record>, group: seq<Record>, ghost records: seq<Record>, ghost files: seq<File>)
    returns (m: JsMap<string, Record>)
    requires Matched(lower, before, records, files, []) && DistinctPaths(records) && forall r :: r in group ==> r in records
    ensures Matched(lower, m, records, files, group)
  {
    m := before;
    for j := 0 to |group|
      invariant Matched(lower, m, records, files, group[..j])
    {
      assert group[..j + 1] == group[..j] + [group[j]];
      OneMoreMatch(lower, m, records, files, group[..j], group[j]);
      m := m.Put(group[j].path, group[j]);
    }
    assert group[..|group|] == group;
  }

  lemma GroupIsOfRows(lower: string -> string, grouped: map<string, seq<Record>>, records: seq<Record>, key: string)
    requires Groups(lower, grouped, records)
    ensures forall r :: r in RowsAt(grouped, key) ==> r in records
  {
    forall r | r in RowsAt(grouped, key) ensures r in records { WithNameHolds(lower, records, key, r); }
  }

  /** The rows whose names are incoming, each once; in the order of the files that replace them. */
  method CollectOverwriteMatches(lower: string -> string, files: seq<File>, existingByName: map<string, seq<Record>>, ghost records: seq<Record>)
    returns (matches: seq<Record>)
    requires Groups(lower, existingByName, records) && DistinctPaths(records)
    ensures DistinctPaths(matches)
    ensures forall r :: r in matches <==> r in Replaced(lower, records, files)
  {
    var m: JsMap<string, Record> := EmptyMap();
    for i := 0 to |files|
      invariant Matched(lower, m, records, files[..i], [])
    {
      GroupIsOfRows(lower, existingByName, records, Key(lower, files[i].name));
      m := MatchGroup(lower, m, RowsAt(existingByName, Key(lower, files[i].name)), records, files[..i]);
      OneMoreFile(lower, m, records, files, i, existingByName);
    }
    assert files[..|files|] == files;
    MatchedValues(lower, m, records, files);
    matches := ValuesOf(m);
  }

  /** `repository.remove` */
  method RemoveRows(records: seq<Record>, removed: seq<Record>) returns (rest: seq<Record>)
    ensures rest == WithoutPaths(records, PathSet(removed))
  {
    var paths := PathSet(removed);
    rest := [];
    for i := 0 to |records|
      invariant rest == WithoutPaths(records[..i], paths)
    {
      assert records[..i + 1][..i] == records[..i];
      if records[i].path !in paths { rest := rest + [records[i]]; }
    }
    assert records[..|records|] == records;
  }

  function WithoutPaths(records: seq<Record>, paths: set<string>): seq<Record> {
    if records == [] then []
    else WithoutPaths(records[..|records| - 1], paths) + if records[|records| - 1].path in paths then [] else [records[|records| - 1]]
  }

  lemma {:induction false} KeptIsRest(lower: string -> string, records: seq<Record>, files: seq<File>, paths: set<string>)
    requires forall r :: r in records ==> (r.path in paths <==> Clashes(lower, files, r))
    ensures WithoutPaths(records, paths) == Kept(lower, records, files)
  {
    if records != [] {
      assert records == records[..|records| - 1] + [records[|records| - 1]];
      KeptIsRest(lower, records[..|records| - 1], files, paths);
    }
  }

  lemma {:induction false} NewRowsStay(records: seq<Record>, staged: seq<Record>, paths: set<string>)
    requires PathSet(staged) !! paths
    ensures WithoutPaths(records + staged, paths) == WithoutPaths(records, paths) + staged
  {
    if staged == [] {
      assert records + staged == records;
    } else {
      var n := |staged| - 1;
      assert staged == staged[..n] + [staged[n]];
      assert (records + staged)[..|records| + n] == records + staged[..n];
      assert staged[n] in staged && staged[n].path in PathSet(staged);
      NewRowsStay(records, staged[..n], paths);
    }
  }

  lemma ReplacedPaths(lower: string -> string, records: seq<Record>, files: seq<File>)
    requires DistinctPaths(records)
    ensures forall r :: r in records ==> (r.path in PathSet(Replaced(lower, records, files)) <==> Clashes(lower, files, r))
    ensures PathSet(Replaced(lower, records, files)) <= PathSet(records)
  {
    forall r | r in records ensures r.path in PathSet(Replaced(lower, records, files)) <==> Clashes(lower, files, r) {
      KeptOrReplaced(lower, records, files, r);
      if q :| q in Replaced(lower, records, files) && q.path == r.path {
        KeptOrReplaced(lower, records, files, q);
        SamePathSameRow(records, r, q);
      }
    }
    forall q | q in Replaced(lower, records, files) ensures q in records { KeptOrReplaced(lower, records, files, q); }
  }

  /** The body of the transaction: check, save, remove. */
  method Store(lower: string -> string, records: seq<Record>, files: seq<File>, strategy: Strategy, staged: seq<Record>)
    returns (next: Option<seq<Record>>, replaced: seq<Record>)
    requires DistinctPaths(records) && PathSet(staged) !! PathSet(records)
    ensures next == Stored(lower, records, files, strategy, staged)
    ensures next.Some? ==> DistinctPaths(replaced) && PathSet(replaced) == Superseded(lower, records, files, strategy)
  {
    replaced := [];
    var existingByName := GroupByNormalizedName(lower, records);
    if strategy == Reject {
      var conflict := HasConflicts(lower, files, existingByName, records);
      if conflict { return None, []; }
    }
    if strategy == Overwrite {
      replaced := CollectOverwriteMatches(lower, files, existingByName, records);
    }
    var saved := records + staged;
    if replaced != [] {
      ReplacedPaths(lower, records, files);
      assert PathSet(replaced) == PathSet(Replaced(lower, records, files));
      NewRowsStay(records, staged, PathSet(replaced));
      KeptIsRest(lower, records, files, PathSet(replaced));
      saved := RemoveRows(saved, replaced);
    } else if strategy == Overwrite {
      NothingReplaced(lower, records, files);
    }
    next := Some(saved);
  }

  lemma NothingReplaced(lower: string -> string, records: seq<Record>, files: seq<File>)
    requires forall r :: r !in Replaced(lower, records, files)
    ensures Kept(lower, records, files) == records && PathSet(Replaced(lower, records, files)) == {}
  {
    forall r | r in records ensures !Clashes(lower, files, r) { KeptOrReplaced(lower, records, files, r); }
    NothingClashes(lower, records, files);
  }

  lemma {:induction false} NothingClashes(lower: string -> string, records: seq<Record>, files: seq<File>)
    requires forall r :: r in records ==> !Clashes(lower, files, r)
    ensures Kept(lower, records, files) == records
  {
    if records != [] {
      assert records == records[..|records| - 1] + [records[|records| - 1]];
      NothingClashes(lower, records[..|records| - 1], files);
    }
  }

  // ------------------------------------------------------------------- what an overwrite does

  /** The staged rows stand for the files one by one. */
  ghost predicate StandsFor(staged: seq<Record>, files: seq<File>) {
    |staged| == |files| && forall i :: 0 <= i < |files| ==> staged[i].name == files[i].name && staged[i].content == files[i].content
  }

  lemma StagedNames(lower: string -> string, files: seq<File>, staged: seq<Record>)
    requires StandsFor(staged, files)
    ensures forall r: Record :: r in staged ==> NamedBy(lower, files, Key(lower, r.name))
  {
    forall r: Record | r in staged ensures NamedBy(lower, files, Key(lower, r.name)) {
      var j :| 0 <= j < |staged| && staged[j] == r;
      assert Key(lower, files[j].name) == Key(lower, r.name);
    }
  }

  /** An overwrite leaves the rows with other names as they were. */
  lemma OverwriteSparesOthers(lower: string -> string, records: seq<Record>, files: seq<File>, staged: seq<Record>, r: Record)
    requires Incoming(lower, files, Overwrite).Ok? && StandsFor(staged, Incoming(lower, files, Overwrite).value)
    requires !NamedBy(lower, files, Key(lower, r.name))
    ensures r in Stored(lower, records, Incoming(lower, files, Overwrite).value, Overwrite, staged).value <==> r in records
  {
    var kept := Incoming(lower, files, Overwrite).value;
    OverwriteKeepsTheLast(lower, files, Key(lower, r.name));
    KeptOrReplaced(lower, records, kept, r);
    StagedNames(lower, kept, staged);
    assert r !in staged;
  }

  /** After an overwrite there is exactly one row of each incoming name: that of the last incoming
      file. */
  lemma OverwriteLeavesOne(lower: string -> string, records: seq<Record>, files: seq<File>, staged: seq<Record>, key: string) returns (row: Record)
    requires Incoming(lower, files, Overwrite).Ok? && StandsFor(staged, Incoming(lower, files, Overwrite).value)
    requires NamedBy(lower, files, key)
    ensures var next := Stored(lower, records, Incoming(lower, files, Overwrite).value, Overwrite, staged).value;
      && row in next && Key(lower, row.name) == key && Some(File(row.name, row.content)) == LastNamed(lower, files, key)
      && forall r :: r in next && Key(lower, r.name) == key ==> r == row
  {
    var kept := Incoming(lower, files, Overwrite).value;
    OverwriteKeepsTheLast(lower, files, key);
    var i :| 0 <= i < |kept| && Key(lower, kept[i].name) == key;
    row := staged[i];
    assert kept[i] == File(row.name, row.content);
    assert NamedBy(lower, kept, key) && key != "";
    forall r | r in Kept(lower, records, kept) + staged && Key(lower, r.name) == key ensures r == row {
      KeptOrReplaced(lower, records, kept, r);
      if r in staged {
        var j :| 0 <= j < |staged| && staged[j] == r;
        assert Key(lower, kept[j].name) == key;
        assert i == j;
      }
    }
  }
}
