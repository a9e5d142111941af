/** backend/src/review/review-manifest.ts: the booklets of an ACP with the occurrences of their
    units, from the ACP index and the uploaded booklet definitions. */
module ReviewManifest {
  import opened BookletParser
  import opened JsMaps
  import opened Outcomes
  import opened Sorting
  import opened Text
  import ItemRowKey

  // ------------------------------------------------------------------------------- input

  datatype ModuleUnit = ModuleUnit(reference: string, order: real, alias: Option<string>)

  datatype Module = Module(id: string, name: string, units: seq<ModuleUnit>)

  /** Absent ids and names are empty strings. */
  datatype IndexBooklet = IndexBooklet(id: string, name: string, definitionId: string, modules: seq<string>)

  datatype Part = Part(modules: seq<Module>, instruments: seq<seq<IndexBooklet>>)

  // ------------------------------------------------------------------------------ output

  datatype Occurrence =
    Occurrence(id: string, name: string, alias: Option<string>, occurrenceId: string, linkId: string, blockPath: seq<string>)

  datatype Draft = Draft(id: string, name: string, definitionId: string, children: seq<Nav>, legacy: bool, moduleIds: seq<string>)

  datatype ReviewBooklet = ReviewBooklet(draft: Draft, units: seq<Occurrence>)

  datatype Issue = Error(path: string, message: string) | Warning(path: string, message: string)

  datatype Manifest = Manifest(booklets: seq<ReviewBooklet>, bookletIds: set<string>, issues: seq<Issue>)

  const EMPTY_MANIFEST := Manifest([], {}, [])

  /** The unit names of the index, and the link id of the n-th occurrence in a booklet: the
      digest of the booklet id, its navigation identity and the position. */
  datatype Env = Env(unitNames: map<string, string>, linkId: (string, seq<Identity>, nat) -> string)

  // --------------------------------------------------------------------------- occurrences

  datatype UnitLeaf = UnitLeaf(id: string, alias: Option<string>, path: string, labels: seq<string>)

  /** The unit leaves in pre-order, each with the labels of the blocks around it. */
  function Leaves(nodes: seq<Nav>, labels: seq<string>): seq<UnitLeaf> {
    if nodes == [] then []
    else Leaves(nodes[..|nodes| - 1], labels) + LeavesOf(nodes[|nodes| - 1], labels)
  }

  function LeavesOf(node: Nav, labels: seq<string>): seq<UnitLeaf> {
    match node
    case Block(_, labelText, _, children) => Leaves(children, labels + [labelText])
    case Unit(id, _, alias, path) => [UnitLeaf(id, alias, path, labels)]
  }

  function OccurrenceOf(env: Env, d: Draft, leaf: UnitLeaf, position: nat): Occurrence {
    Occurrence(leaf.id, if leaf.id in env.unitNames && env.unitNames[leaf.id] != "" then env.unitNames[leaf.id] else leaf.id,
               leaf.alias, ItemRowKey.Encode(d.id) + ":" + leaf.path,
               env.linkId(d.id, NavigationIdentity(d.children), position), leaf.labels)
  }

  function Occurrences(env: Env, d: Draft, leaves: seq<UnitLeaf>, start: nat): seq<Occurrence> {
    seq(|leaves|, k requires 0 <= k < |leaves| => OccurrenceOf(env, d, leaves[k], start + k))
  }

  function UnknownUnits(env: Env, leaves: seq<UnitLeaf>): seq<Issue> {
    if leaves == [] then []
    else
      var leaf := leaves[|leaves| - 1];
      UnknownUnits(env, leaves[..|leaves| - 1])
      + if leaf.id in env.unitNames then [] else [Error(leaf.path, "Unbekannte Unit: " + leaf.id)]
  }

  /** `add` */
  function AddDraft(env: Env, m: Manifest, d: Draft, path: string): Manifest {
    if d.id == "" || (!d.legacy && d.id in m.bookletIds) then
      m.(issues := m.issues + [Error(path, "Booklet-ID fehlt oder ist ACP-weit doppelt.")])
    else
      var leaves := Leaves(d.children, []);
      Manifest(m.booklets + [ReviewBooklet(d, Occurrences(env, d, leaves, 0))],
               if d.legacy then m.bookletIds else m.bookletIds + {d.id},
               m.issues + UnknownUnits(env, leaves))
  }

  // --------------------------------------------------------------------------- module nodes

  function FindModule(modules: seq<Module>, id: string): Option<Module> {
    if modules == [] then None
    else if modules[0].id == id then Some(modules[0])
    else FindModule(modules[1..], id)
  }

  function UnitOrder(): (ModuleUnit, ModuleUnit) -> bool { (a: ModuleUnit, b: ModuleUnit) => a.order <= b.order }

  function UnitOfModule(env: Env, unit: ModuleUnit, modulePath: string, i: nat): Nav {
    var id := Trim(unit.reference);
    Unit(id, if id in env.unitNames && env.unitNames[id] != "" then env.unitNames[id] else id,
         unit.alias, modulePath + ".units[" + Decimal(i) + "]")
  }

  function ModuleUnits(env: Env, units: seq<ModuleUnit>, modulePath: string): seq<Nav> {
    seq(|units|, i requires 0 <= i < |units| => UnitOfModule(env, units[i], modulePath, i))
  }

  function ModuleNode(env: Env, bookletModule: Module, id: string, modulePath: string): Nav {
    Block(id, if bookletModule.name != "" then bookletModule.name else id, modulePath,
          ModuleUnits(env, Sort(bookletModule.units, UnitOrder()), modulePath))
  }

  /** `moduleNodes` for the first references; unknown modules are reported and left out. */
  function ModuleNodes(env: Env, modules: seq<Module>, refs: seq<string>, path: string): (seq<Nav>, seq<Issue>) {
    if refs == [] then ([], [])
    else
      var n := |refs| - 1;
      var (nodes, issues) := ModuleNodes(env, modules, refs[..n], path);
      var id, modulePath := Trim(refs[n]), path + "[" + Decimal(n) + "]";
      match FindModule(modules, id)
      case None => (nodes, issues + [Error(modulePath, "Unbekanntes Modul: " + id)])
      case Some(found) => (nodes + [ModuleNode(env, found, id, modulePath)], issues)
  }

  // ------------------------------------------------------------------------------ building

  function TrimAll(refs: seq<string>): seq<string> {
    seq(|refs|, i requires 0 <= i < |refs| => Trim(refs[i]))
  }

  /** What an index entry leads to: reports, and possibly a booklet to add. */
  datatype Treatment = Treatment(issues: seq<Issue>, draft: Option<Draft>)

  /** A booklet with an uploaded definition. */
  function FromDefinition(root: Xml, entry: IndexBooklet, path: string): Treatment {
    match ParseBooklet(root, path + ".definitionId(" + entry.definitionId + ")")
    case Err(e) => Treatment([Error(e.path, e.message)], None)
    case Ok(parsed) =>
      if entry.id != "" && entry.id != parsed.id then
        Treatment([Error(path, "Booklet-ID im Index widerspricht der XML-ID.")], None)
      else
        Treatment([], Some(Draft(parsed.id, if entry.name != "" then entry.name else parsed.labelText,
                                 entry.definitionId, parsed.children, false, TrimAll(entry.modules))))
  }

  function MissingFile(entry: IndexBooklet, path: string): seq<Issue> {
    if entry.definitionId == "" then []
    else [Warning(path, "Booklet-Datei fehlt: " + entry.definitionId + "; vorhandene Module werden angezeigt.")]
  }

  function ModulesDraft(entry: IndexBooklet, nodes: seq<Nav>, path: string): Draft {
    Draft(if entry.id != "" then entry.id else "legacy:" + path,
          if entry.name != "" then entry.name else if entry.id != "" then entry.id
          else if entry.definitionId != "" then entry.definitionId else "Booklet",
          entry.definitionId, nodes, entry.id == "", TrimAll(entry.modules))
  }

  /** A booklet described by its modules. */
  function FromModules(env: Env, modules: seq<Module>, entry: IndexBooklet, path: string): Treatment {
    var (nodes, issues) := ModuleNodes(env, modules, entry.modules, path + ".modules");
    Treatment(MissingFile(entry, path) + issues, Some(ModulesDraft(entry, nodes, path)))
  }

  function Treat(env: Env, modules: seq<Module>, definitions: map<string, Xml>, entry: IndexBooklet, path: string): Treatment {
    if entry.definitionId != "" && entry.definitionId in definitions then
      FromDefinition(definitions[entry.definitionId], entry, path)
    else if entry.modules != [] then
      FromModules(env, modules, entry, path)
    else
      Treatment([Error(path, if entry.definitionId != "" then "Booklet-Datei fehlt: " + entry.definitionId
                             else "Booklet besitzt weder XML-Definition noch Module.")], None)
  }

  /** A module that no booklet refers to. */
  function FromUnassigned(env: Env, modules: seq<Module>, bookletModule: Module, path: string): Treatment {
    var (nodes, issues) := ModuleNodes(env, modules, [bookletModule.id], path);
    Treatment(issues, Some(Draft(bookletModule.id, if bookletModule.name != "" then bookletModule.name else bookletModule.id,
                                 "", nodes, true, [])))
  }

  function Apply(env: Env, m: Manifest, t: Treatment, path: string): Manifest {
    var reported := m.(issues := m.issues + t.issues);
    match t.draft
    case None => reported
    case Some(d) => AddDraft(env, reported, d, path)
  }

  datatype Entry = Entry(booklet: IndexBooklet, path: string)

  /** The booklet entries of all instruments of a part, in order. */
  function EntriesOf(instruments: seq<seq<IndexBooklet>>, prefix: string): seq<Entry> {
    if instruments == [] then []
    else
      var n := |instruments| - 1;
      EntriesOf(instruments[..n], prefix)
      + seq(|instruments[n]|, b requires 0 <= b < |instruments[n]| =>
          Entry(instruments[n][b], prefix + ".instruments[" + Decimal(n) + "].testcenterBooklet[" + Decimal(b) + "]"))
  }

  function AfterEntries(env: Env, m: Manifest, modules: seq<Module>, definitions: map<string, Xml>, entries: seq<Entry>): Manifest {
    if entries == [] then m
    else
      var e := entries[|entries| - 1];
      Apply(env, AfterEntries(env, m, modules, definitions, entries[..|entries| - 1]),
            Treat(env, modules, definitions, e.booklet, e.path), e.path)
  }

  /** The modules that some booklet of the part refers to. */
  function Referenced(entries: seq<Entry>): set<string> {
    set e, ref | e in entries && ref in TrimAll(e.booklet.modules) :: ref
  }

  function AfterModules(env: Env, m: Manifest, modules: seq<Module>, referenced: set<string>, prefix: string, n: nat): Manifest
    requires n <= |modules|
  {
    if n == 0 then m
    else
      var before := AfterModules(env, m, modules, referenced, prefix, n - 1);
      var path := prefix + ".bookletModules[" + Decimal(n - 1) + "]";
      if modules[n - 1].id in referenced then before
      else Apply(env, before, FromUnassigned(env, modules, modules[n - 1], path), path)
  }

  function AfterPart(env: Env, m: Manifest, part: Part, definitions: map<string, Xml>, prefix: string): Manifest {
    var entries := EntriesOf(part.instruments, prefix);
    AfterModules(env, AfterEntries(env, m, part.modules, definitions, entries), part.modules, Referenced(entries), prefix, |part.modules|)
  }

  function AfterParts(env: Env, parts: seq<Part>, definitions: map<string, Xml>): Manifest {
    if parts == [] then EMPTY_MANIFEST
    else
      var n := |parts| - 1;
      AfterPart(env, AfterParts(env, parts[..n], definitions), parts[n], definitions, "assessmentParts[" + Decimal(n) + "]")
  }

  // ---------------------------------------------------------------------------- invariants

  /** A booklet lists exactly its unit leaves in pre-order, and their paths are distinct. */
  ghost predicate Sound(env: Env, b: ReviewBooklet, bookletIds: set<string>) {
    && b.draft.id != ""
    && (!b.draft.legacy ==> b.draft.id in bookletIds)
    && b.units == Occurrences(env, b.draft, Leaves(b.draft.children, []), 0)
    && Distinct(UnitPaths(b.draft.children))
  }

  /** Moreover the ids of non-legacy booklets are unique. */
  ghost predicate Inv(env: Env, m: Manifest) {
    && (forall i :: 0 <= i < |m.booklets| ==> Sound(env, m.booklets[i], m.bookletIds))
    && (forall i, j :: 0 <= i < j < |m.booklets| && !m.booklets[i].draft.legacy && !m.booklets[j].draft.legacy ==>
          m.booklets[i].draft.id != m.booklets[j].draft.id)
  }

  lemma SoundWithMoreIds(env: Env, b: ReviewBooklet, ids: set<string>, more: set<string>)
    requires Sound(env, b, ids) && ids <= more
    ensures Sound(env, b, more)
  {
  }

  lemma AddKeepsInv(env: Env, m: Manifest, d: Draft, path: string)
    requires Inv(env, m) && Distinct(UnitPaths(d.children))
    ensures Inv(env, AddDraft(env, m, d, path))
  {
    var m' := AddDraft(env, m, d, path);
    if |m'.booklets| > |m.booklets| {
      assert Sound(env, m'.booklets[|m.booklets|], m'.bookletIds);
      forall i | 0 <= i < |m.booklets| ensures Sound(env, m'.booklets[i], m'.bookletIds) {
        SoundWithMoreIds(env, m.booklets[i], m.bookletIds, m'.bookletIds);
      }
      forall i | 0 <= i < |m.booklets| && !m.booklets[i].draft.legacy && !d.legacy ensures m.booklets[i].draft.id != d.id {
        assert Sound(env, m.booklets[i], m.bookletIds);
      }
    }
  }

  lemma ApplyKeepsInv(env: Env, m: Manifest, t: Treatment, path: string)
    requires Inv(env, m) && (t.draft.Some? ==> Distinct(UnitPaths(t.draft.value.children)))
    ensures Inv(env, Apply(env, m, t, path))
  {
    if t.draft.Some? { AddKeepsInv(env, m.(issues := m.issues + t.issues), t.draft.value, path); }
  }

  lemma FewerModuleUnits(env: Env, units: seq<ModuleUnit>, modulePath: string)
    requires units != []
    ensures var all := ModuleUnits(env, units, modulePath);
      && |all| == |units| && all[..|units| - 1] == ModuleUnits(env, units[..|units| - 1], modulePath)
      && UnitPathsOf(all[|units| - 1]) == [modulePath + ".units[" + Decimal(|units| - 1) + "]"]
  {
    var n, all, fewer := |units| - 1, ModuleUnits(env, units, modulePath), ModuleUnits(env, units[..|units| - 1], modulePath);
    forall i | 0 <= i < n ensures all[i] == fewer[i] { assert units[..n][i] == units[i]; }
  }

  lemma {:induction false} ModuleUnitPaths(env: Env, units: seq<ModuleUnit>, modulePath: string)
    ensures |UnitPaths(ModuleUnits(env, units, modulePath))| == |units|
    ensures forall i :: 0 <= i < |units| ==>
              UnitPaths(ModuleUnits(env, units, modulePath))[i] == modulePath + ".units[" + Decimal(i) + "]"
  {
    if units != [] {
      ModuleUnitPaths(env, units[..|units| - 1], modulePath);
      FewerModuleUnits(env, units, modulePath);
    }
  }

  /** The path of a unit inside the module at the given position. */
  ghost predicate InModule(p: string, path: string, position: nat) {
    exists i: nat :: p == path + "[" + Decimal(position) + "]" + ".units[" + Decimal(i) + "]"
  }

  lemma PositionFromPath(path: string, k: nat, l: nat, a: string, b: string)
    requires path + "[" + Decimal(k) + "]" + a == path + "[" + Decimal(l) + "]" + b
    ensures k == l && a == b
  {
    var p := path + "[" + Decimal(k) + "]" + a;
    var tail := p[|path| + 1..];
    assert tail == Decimal(k) + "]" + a;
    assert tail == Decimal(l) + "]" + b;
    BracketedNumber(k, l, a, b);
    assert a == tail[|Decimal(k)| + 1..] == b;
  }

  lemma UnitPositionFromPath(path: string, i: nat, j: nat)
    requires path + ".units[" + Decimal(i) + "]" == path + ".units[" + Decimal(j) + "]"
    ensures i == j
  {
    assert path + ".units[" + Decimal(i) + "]" == (path + ".units") + "[" + Decimal(i) + "]" + "";
    assert path + ".units[" + Decimal(j) + "]" == (path + ".units") + "[" + Decimal(j) + "]" + "";
    PositionFromPath(path + ".units", i, j, "", "");
  }

  lemma ModuleUnitPathsDistinct(env: Env, units: seq<ModuleUnit>, path: string, position: nat)
    ensures Distinct(UnitPaths(ModuleUnits(env, units, path + "[" + Decimal(position) + "]")))
    ensures forall p :: p in UnitPaths(ModuleUnits(env, units, path + "[" + Decimal(position) + "]")) ==> InModule(p, path, position)
  {
    var modulePath := path + "[" + Decimal(position) + "]";
    ModuleUnitPaths(env, units, modulePath);
    var paths := UnitPaths(ModuleUnits(env, units, modulePath));
    forall i, j | 0 <= i < j < |paths| ensures paths[i] != paths[j] {
      if paths[i] == paths[j] { UnitPositionFromPath(modulePath, i, j); }
    }
  }

  lemma {:induction false} ModuleNodesPaths(env: Env, modules: seq<Module>, refs: seq<string>, path: string)
    ensures Distinct(UnitPaths(ModuleNodes(env, modules, refs, path).0))
    ensures forall p :: p in UnitPaths(ModuleNodes(env, modules, refs, path).0) ==>
              exists k: nat :: k < |refs| && InModule(p, path, k)
  {
    if refs != [] {
      var n := |refs| - 1;
      ModuleNodesPaths(env, modules, refs[..n], path);
      var nodes := ModuleNodes(env, modules, refs[..n], path).0;
      var modulePath := path + "[" + Decimal(n) + "]";
      match FindModule(modules, Trim(refs[n]))
      case None =>
      case Some(found) =>
        var node := ModuleNode(env, found, Trim(refs[n]), modulePath);
        ModuleUnitPathsDistinct(env, Sort(found.units, UnitOrder()), path, n);
        assert (nodes + [node])[..|nodes|] == nodes;
        AppendPaths(UnitPaths(nodes), UnitPathsOf(node), path, n);
    }
  }

  lemma AppendPaths(paths: seq<string>, more: seq<string>, path: string, n: nat)
    requires Distinct(paths) && Distinct(more)
    requires forall p :: p in paths ==> exists k: nat :: k < n && InModule(p, path, k)
    requires forall p :: p in more ==> InModule(p, path, n)
    ensures Distinct(paths + more)
    ensures forall p :: p in paths + more ==> exists k: nat :: k < n + 1 && InModule(p, path, k)
  {
    forall i, j | 0 <= i < j < |paths + more| ensures (paths + more)[i] != (paths + more)[j] {
      if i < |paths| <= j && paths[i] == more[j - |paths|] {
        var p := paths[i];
        assert p in paths && more[j - |paths|] in more;
        var k: nat :| k < n && InModule(p, path, k);
        ModuleOfPath(p, path, k, n);
      }
    }
  }

  lemma ModuleOfPath(p: string, path: string, k: nat, l: nat)
    requires InModule(p, path, k) && InModule(p, path, l)
    ensures k == l
  {
    var i: nat :| p == path + "[" + Decimal(k) + "]" + ".units[" + Decimal(i) + "]";
    var j: nat :| p == path + "[" + Decimal(l) + "]" + ".units[" + Decimal(j) + "]";
    var a, b := ".units[" + Decimal(i) + "]", ".units[" + Decimal(j) + "]";
    assert p == path + "[" + Decimal(k) + "]" + a;
    assert p == path + "[" + Decimal(l) + "]" + b;
    PositionFromPath(path, k, l, a, b);
  }

  lemma TreatmentPaths(env: Env, modules: seq<Module>, definitions: map<string, Xml>, entry: IndexBooklet, path: string)
    ensures var t := Treat(env, modules, definitions, entry, path);
      t.draft.Some? ==> Distinct(UnitPaths(t.draft.value.children))
  {
    if entry.definitionId != "" && entry.definitionId in definitions {
      AcceptedBooklets(definitions[entry.definitionId], path + ".definitionId(" + entry.definitionId + ")");
    } else {
      ModuleNodesPaths(env, modules, entry.modules, path + ".modules");
    }
  }

  // ---------------------------------------------------------------------- occurrence ids

  lemma {:induction false} LeafPaths(nodes: seq<Nav>, labels: seq<string>)
    ensures |Leaves(nodes, labels)| == |UnitPaths(nodes)|
    ensures forall k :: 0 <= k < |Leaves(nodes, labels)| ==> Leaves(nodes, labels)[k].path == UnitPaths(nodes)[k]
    decreases nodes, 0
  {
    if nodes != [] {
      LeafPaths(nodes[..|nodes| - 1], labels);
      LeafPathsOf(nodes[|nodes| - 1], labels);
    }
  }

  lemma {:induction false} LeafPathsOf(node: Nav, labels: seq<string>)
    ensures |LeavesOf(node, labels)| == |UnitPathsOf(node)|
    ensures forall k :: 0 <= k < |LeavesOf(node, labels)| ==> LeavesOf(node, labels)[k].path == UnitPathsOf(node)[k]
    decreases node, 1
  {
    if node.Block? { LeafPaths(node.children, labels + [node.labelText]); }
  }

  lemma ColonSplits(a: string, b: string, p: string, q: string)
    requires a + ":" + p == b + ":" + q
    requires forall i :: 0 <= i < |a| ==> a[i] != ':'
    requires forall i :: 0 <= i < |b| ==> b[i] != ':'
    ensures a == b && p == q
  {
    var s := a + ":" + p;
    assert s[|a|] == ':' && s[|b|] == ':';
    assert forall i :: 0 <= i < |a| ==> s[i] == a[i];
    assert forall i :: 0 <= i < |b| ==> s[i] == b[i];
    assert a == s[..|a|] && b == s[..|b|];
    assert p == s[|a| + 1..] && q == s[|b| + 1..];
  }

  /** In a manifest, an occurrence id names one unit of one non-legacy booklet. */
  lemma OccurrenceIdsAreUnique(env: Env, m: Manifest, i: nat, k: nat, j: nat, l: nat)
    requires Inv(env, m)
    requires i < |m.booklets| && !m.booklets[i].draft.legacy && k < |m.booklets[i].units|
    requires j < |m.booklets| && !m.booklets[j].draft.legacy && l < |m.booklets[j].units|
    requires m.booklets[i].units[k].occurrenceId == m.booklets[j].units[l].occurrenceId
    ensures i == j && k == l
  {
    assert Sound(env, m.booklets[i], m.bookletIds) && Sound(env, m.booklets[j], m.bookletIds);
    var a, b := m.booklets[i].draft, m.booklets[j].draft;
    var p, q := Leaves(a.children, [])[k].path, Leaves(b.children, [])[l].path;
    ItemRowKey.EncodeAlphabet(a.id);
    ItemRowKey.EncodeAlphabet(b.id);
    ColonSplits(ItemRowKey.Encode(a.id), ItemRowKey.Encode(b.id), p, q);
    ItemRowKey.EncodeInjective(a.id, b.id);
    LeafPaths(a.children, []);
    assert UnitPaths(a.children)[k] == p;
    assert i == j;
    assert UnitPaths(a.children)[l] == q;
  }

  // ------------------------------------------------------------------------- stable links

  lemma {:induction false} IdentityFixesUnits(nodes: seq<Nav>, labels: seq<string>)
    ensures |Leaves(nodes, labels)| == |UnitsOf(NavigationIdentity(nodes))|
    ensures forall k :: 0 <= k < |Leaves(nodes, labels)| ==> Leaves(nodes, labels)[k].id == UnitsOf(NavigationIdentity(nodes))[k]
    decreases nodes, 0
  {
    if nodes != [] {
      var n := |nodes| - 1;
      IdentityFixesUnits(nodes[..n], labels);
      IdentityFixesUnitsOf(nodes[n], labels);
      UnitsOfConcat(NavigationIdentity(nodes[..n]), [IdentityOf(nodes[n])]);
    }
  }

  lemma {:induction false} IdentityFixesUnitsOf(node: Nav, labels: seq<string>)
    ensures |LeavesOf(node, labels)| == |UnitsOf([IdentityOf(node)])|
    ensures forall k :: 0 <= k < |LeavesOf(node, labels)| ==> LeavesOf(node, labels)[k].id == UnitsOf([IdentityOf(node)])[k]
    decreases node, 1
  {
    assert [IdentityOf(node)][..0] == [];
    if node.Block? { IdentityFixesUnits(node.children, labels + [node.labelText]); }
  }

  /** Changing labels, names and source locations changes no link: booklets with the same id and
      the same navigation identity have the same units under the same links. */
  lemma LinksIgnoreLabelsAndPaths(env: Env, a: Draft, b: Draft)
    requires a.id == b.id && NavigationIdentity(a.children) == NavigationIdentity(b.children)
    ensures var s, t := Occurrences(env, a, Leaves(a.children, []), 0), Occurrences(env, b, Leaves(b.children, []), 0);
      |s| == |t| && forall k :: 0 <= k < |s| ==> s[k].linkId == t[k].linkId && s[k].id == t[k].id
  {
    IdentityFixesUnits(a.children, []);
    IdentityFixesUnits(b.children, []);
  }

  // ------------------------------------------------------------------------- the builder

  lemma Associative<T>(a: seq<T>, b: seq<T>, c: seq<T>)
    ensures (a + b) + c == a + (b + c)
  {
  }

  lemma WalkedOneMore(env: Env, d: Draft, nodes: seq<Nav>, i: nat, labels: seq<string>, first: nat)
    requires i < |nodes|
    ensures var seen := Occurrences(env, d, Leaves(nodes[..i], labels), first);
      Occurrences(env, d, Leaves(nodes[..i + 1], labels), first)
        == seen + Occurrences(env, d, LeavesOf(nodes[i], labels), first + |seen|)
  {
    assert nodes[..i + 1][..i] == nodes[..i] && nodes[..i + 1][i] == nodes[i];
    OccurrencesConcat(env, d, Leaves(nodes[..i], labels), LeavesOf(nodes[i], labels), first);
  }

  /** `seen` has been appended so far, and one more node appends its own. */
  lemma UnitsOneMore(env: Env, d: Draft, nodes: seq<Nav>, i: nat, labels: seq<string>, units: seq<Occurrence>, seen: seq<Occurrence>)
    requires i < |nodes| && seen == Occurrences(env, d, Leaves(nodes[..i], labels), |units|)
    ensures units + Occurrences(env, d, Leaves(nodes[..i + 1], labels), |units|)
         == units + seen + Occurrences(env, d, LeavesOf(nodes[i], labels), |units + seen|)
  {
    WalkedOneMore(env, d, nodes, i, labels, |units|);
    Associative(units, seen, Occurrences(env, d, LeavesOf(nodes[i], labels), |units| + |seen|));
  }

  lemma IssuesOneMore(env: Env, nodes: seq<Nav>, i: nat, labels: seq<string>, issues: seq<Issue>)
    requires i < |nodes|
    ensures issues + UnknownUnits(env, Leaves(nodes[..i + 1], labels))
         == issues + UnknownUnits(env, Leaves(nodes[..i], labels)) + UnknownUnits(env, LeavesOf(nodes[i], labels))
  {
    assert nodes[..i + 1][..i] == nodes[..i] && nodes[..i + 1][i] == nodes[i];
    UnknownConcat(env, Leaves(nodes[..i], labels), LeavesOf(nodes[i], labels));
    Associative(issues, UnknownUnits(env, Leaves(nodes[..i], labels)), UnknownUnits(env, LeavesOf(nodes[i], labels)));
  }

  class ManifestBuilder {
    const env: Env
    var booklets: seq<ReviewBooklet>
    var bookletIds: set<string>
    var issues: seq<Issue>
    /** The units of the booklet being added. */
    var units: seq<Occurrence>

    ghost function Result(): Manifest reads this { Manifest(booklets, bookletIds, issues) }

    constructor (env: Env)
      ensures this.env == env && Result() == EMPTY_MANIFEST
    {
      this.env := env;
      booklets, bookletIds, issues, units := [], {}, [], [];
    }

    /** `walk` */
    method Walk(d: Draft, nodes: seq<Nav>, labels: seq<string>)
      modifies this`units, this`issues
      ensures units == old(units) + Occurrences(env, d, Leaves(nodes, labels), |old(units)|)
      ensures issues == old(issues) + UnknownUnits(env, Leaves(nodes, labels))
      decreases nodes, 0
    {
      assert nodes[..0] == [];
      for i := 0 to |nodes|
        invariant units == old(units) + Occurrences(env, d, Leaves(nodes[..i], labels), |old(units)|)
        invariant issues == old(issues) + UnknownUnits(env, Leaves(nodes[..i], labels))
      {
        UnitsOneMore(env, d, nodes, i, labels, old(units), Occurrences(env, d, Leaves(nodes[..i], labels), |old(units)|));
        IssuesOneMore(env, nodes, i, labels, old(issues));
        WalkNode(d, nodes[i], labels);
      }
      assert nodes[..|nodes|] == nodes;
    }

    method WalkNode(d: Draft, node: Nav, labels: seq<string>)
      modifies this`units, this`issues
      ensures units == old(units) + Occurrences(env, d, LeavesOf(node, labels), |old(units)|)
      ensures issues == old(issues) + UnknownUnits(env, LeavesOf(node, labels))
      decreases node, 1
    {
      if node.Block? {
        Walk(d, node.children, labels + [node.labelText]);
        return;
      }
      assert [UnitLeaf(node.id, node.alias, node.path, labels)][..0] == [];
      if node.id !in env.unitNames {
        issues := issues + [Error(node.path, "Unbekannte Unit: " + node.id)];
      }
      units := units + [OccurrenceOf(env, d, UnitLeaf(node.id, node.alias, node.path, labels), |units|)];
    }

    method AddBooklet(d: Draft, path: string)
      modifies this
      ensures Result() == AddDraft(env, old(Result()), d, path)
    {
      if d.id == "" || (!d.legacy && d.id in bookletIds) {
        issues := issues + [Error(path, "Booklet-ID fehlt oder ist ACP-weit doppelt.")];
        return;
      }
      if !d.legacy { bookletIds := bookletIds + {d.id}; }
      units := [];
      Walk(d, d.children, []);
      assert units == Occurrences(env, d, Leaves(d.children, []), 0);
      booklets := booklets + [ReviewBooklet(d, units)];
    }

    method NodesOfModules(modules: seq<Module>, refs: seq<string>, path: string) returns (nodes: seq<Nav>)
      modifies this`issues
      ensures nodes == ModuleNodes(env, modules, refs, path).0
      ensures issues == old(issues) + ModuleNodes(env, modules, refs, path).1
    {
      nodes := [];
      for position := 0 to |refs|
        invariant nodes == ModuleNodes(env, modules, refs[..position], path).0
        invariant issues == old(issues) + ModuleNodes(env, modules, refs[..position], path).1
      {
        assert refs[..position + 1][..position] == refs[..position];
        var moduleId, modulePath := Trim(refs[position]), path + "[" + Decimal(position) + "]";
        var found := FindModule(modules, moduleId);
        if found.None? {
          issues := issues + [Error(modulePath, "Unbekanntes Modul: " + moduleId)];
        } else {
          nodes := nodes + [ModuleNode(env, found.value, moduleId, modulePath)];
        }
      }
      assert refs[..|refs|] == refs;
    }

    /** One booklet entry of the index. */
    method AddIndexBooklet(modules: seq<Module>, definitions: map<string, Xml>, entry: IndexBooklet, path: string)
      requires Inv(env, Result())
      modifies this
      ensures Result() == Apply(env, old(Result()), Treat(env, modules, definitions, entry, path), path)
      ensures Inv(env, Result())
    {
      TreatmentPaths(env, modules, definitions, entry, path);
      ApplyKeepsInv(env, Result(), Treat(env, modules, definitions, entry, path), path);
      if entry.definitionId != "" && entry.definitionId in definitions {
        AddDefinedBooklet(definitions[entry.definitionId], entry, path);
      } else if entry.modules != [] {
        AddBookletOfModules(modules, entry, path);
      } else {
        issues := issues + [Error(path, if entry.definitionId != "" then "Booklet-Datei fehlt: " + entry.definitionId
                                        else "Booklet besitzt weder XML-Definition noch Module.")];
      }
    }

    method AddDefinedBooklet(root: Xml, entry: IndexBooklet, path: string)
      modifies this
      ensures Result() == Apply(env, old(Result()), FromDefinition(root, entry, path), path)
    {
      var parsed := ParseBooklet(root, path + ".definitionId(" + entry.definitionId + ")");
      if parsed.Err? {
        issues := issues + [Error(parsed.error.path, parsed.error.message)];
        return;
      }
      if entry.id != "" && entry.id != parsed.value.id {
        issues := issues + [Error(path, "Booklet-ID im Index widerspricht der XML-ID.")];
        return;
      }
      assert issues + [] == issues;
      AddBooklet(Draft(if entry.id != "" then entry.id else parsed.value.id,
                       if entry.name != "" then entry.name else parsed.value.labelText,
                       entry.definitionId, parsed.value.children, false, TrimAll(entry.modules)), path);
    }

    method AddBookletOfModules(modules: seq<Module>, entry: IndexBooklet, path: string)
      modifies this
      ensures Result() == Apply(env, old(Result()), FromModules(env, modules, entry, path), path)
    {
      issues := issues + MissingFile(entry, path);
      var nodes := NodesOfModules(modules, entry.modules, path + ".modules");
      assert issues == old(issues) + FromModules(env, modules, entry, path).issues;
      AddBooklet(ModulesDraft(entry, nodes, path), path);
    }

    /** `buildReviewManifest` for all parts of the index. */
    method Build(parts: seq<Part>, definitions: map<string, Xml>)
      requires Result() == EMPTY_MANIFEST
      modifies this
      ensures Result() == AfterParts(env, parts, definitions) && Inv(env, Result())
    {
      for p := 0 to |parts|
        invariant Result() == AfterParts(env, parts[..p], definitions) && Inv(env, Result())
      {
        assert parts[..p + 1][..p] == parts[..p];
        AddPart(parts[p], definitions, "assessmentParts[" + Decimal(p) + "]");
      }
      assert parts[..|parts|] == parts;
    }

    method AddPart(part: Part, definitions: map<string, Xml>, prefix: string)
      requires Inv(env, Result())
      modifies this
      ensures Result() == AfterPart(env, old(Result()), part, definitions, prefix) && Inv(env, Result())
    {
      var entries := EntriesOf(part.instruments, prefix);
      AddEntries(part.modules, definitions, entries);
      AddModules(part.modules, Referenced(entries), prefix);
    }

    method AddEntries(modules: seq<Module>, definitions: map<string, Xml>, entries: seq<Entry>)
      requires Inv(env, Result())
      modifies this
      ensures Result() == AfterEntries(env, old(Result()), modules, definitions, entries) && Inv(env, Result())
    {
      for e := 0 to |entries|
        invariant Result() == AfterEntries(env, old(Result()), modules, definitions, entries[..e]) && Inv(env, Result())
      {
        assert entries[..e + 1][..e] == entries[..e];
        AddIndexBooklet(modules, definitions, entries[e].booklet, entries[e].path);
      }
      assert entries[..|entries|] == entries;
    }

    method AddModules(modules: seq<Module>, referenced: set<string>, prefix: string)
      requires Inv(env, Result())
      modifies this
      ensures Result() == AfterModules(env, old(Result()), modules, referenced, prefix, |modules|) && Inv(env, Result())
    {
      for i := 0 to |modules|
        invariant Result() == AfterModules(env, old(Result()), modules, referenced, prefix, i) && Inv(env, Result())
      {
        if modules[i].id !in referenced {
          AddUnassigned(modules, modules[i], prefix + ".bookletModules[" + Decimal(i) + "]");
        }
      }
    }

    method AddUnassigned(modules: seq<Module>, bookletModule: Module, path: string)
      requires Inv(env, Result())
      modifies this
      ensures Result() == Apply(env, old(Result()), FromUnassigned(env, modules, bookletModule, path), path)
      ensures Inv(env, Result())
    {
      ModuleNodesPaths(env, modules, [bookletModule.id], path);
      ApplyKeepsInv(env, Result(), FromUnassigned(env, modules, bookletModule, path), path);
      var nodes := NodesOfModules(modules, [bookletModule.id], path);
      AddBooklet(Draft(bookletModule.id, if bookletModule.name != "" then bookletModule.name else bookletModule.id, "", nodes, true, []), path);
    }
  }

  lemma OccurrencesConcat(env: Env, d: Draft, a: seq<UnitLeaf>, b: seq<UnitLeaf>, start: nat)
    ensures Occurrences(env, d, a + b, start) == Occurrences(env, d, a, start) + Occurrences(env, d, b, start + |a|)
  {
  }

  lemma {:induction false} UnknownConcat(env: Env, a: seq<UnitLeaf>, b: seq<UnitLeaf>)
    ensures UnknownUnits(env, a + b) == UnknownUnits(env, a) + UnknownUnits(env, b)
  {
    if b == [] {
      assert a + b == a;
    } else {
      assert (a + b)[..|a + b| - 1] == a + b[..|b| - 1];
      UnknownConcat(env, a, b[..|b| - 1]);
    }
  }
}
