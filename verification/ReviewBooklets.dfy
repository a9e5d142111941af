/** backend/src/review/review-manifest.ts: what a manifest lists. Every entry of the index and every module
    without one becomes a booklet with what its document or its modules say, or is reported. */
module ReviewBooklets {
  import opened BookletParser
  import opened JsMaps
  import opened Outcomes
  import opened ReviewManifest
  import opened Sorting
  import opened Text
  import ItemRowKey

  // ----------------------------------------------------------------------------- occurrences

  /** Blocks each of which is a child of the one before it, the first one among the nodes; the node is
      a child of the last one. */
  ghost predicate Enclose(nodes: seq<Nav>, blocks: seq<Nav>, node: Nav)
    decreases |blocks|
  {
    if blocks == [] then node in nodes
    else blocks[0] in nodes && blocks[0].Block? && Enclose(blocks[0].children, blocks[1..], node)
  }

  function Labels(blocks: seq<Nav>): seq<string>
    requires forall i :: 0 <= i < |blocks| ==> blocks[i].Block?
  {
    seq(|blocks|, i requires 0 <= i < |blocks| => blocks[i].labelText)
  }

  /** The leaf is a unit of the tree, and it has the labels of the blocks around it, the outermost first. */
  ghost predicate IsLeafOf(nodes: seq<Nav>, labels: seq<string>, leaf: UnitLeaf) {
    exists blocks: seq<Nav>, node: Nav ::
      && (forall i :: 0 <= i < |blocks| ==> blocks[i].Block?) && Enclose(nodes, blocks, node)
      && node.Unit? && leaf.id == node.id && leaf.alias == node.alias && leaf.path == node.path
      && leaf.labels == labels + Labels(blocks)
  }

  lemma UnderBlock(nodes: seq<Nav>, block: Nav, labels: seq<string>, leaf: UnitLeaf)
    requires block in nodes && block.Block? && IsLeafOf(block.children, labels + [block.labelText], leaf)
    ensures IsLeafOf(nodes, labels, leaf)
  {
    var blocks: seq<Nav>, node: Nav :|
      && (forall i :: 0 <= i < |blocks| ==> blocks[i].Block?) && Enclose(block.children, blocks, node)
      && node.Unit? && leaf.id == node.id && leaf.alias == node.alias && leaf.path == node.path
      && leaf.labels == labels + [block.labelText] + Labels(blocks);
    var all := [block] + blocks;
    assert all[1..] == blocks;
    assert labels + [block.labelText] + Labels(blocks) == labels + Labels(all);
    assert Enclose(nodes, all, node);
  }

  lemma AmongMore(nodes: seq<Nav>, more: seq<Nav>, labels: seq<string>, leaf: UnitLeaf)
    requires IsLeafOf(nodes, labels, leaf) && forall n :: n in nodes ==> n in more
    ensures IsLeafOf(more, labels, leaf)
  {
    var blocks: seq<Nav>, node: Nav :|
      && (forall i :: 0 <= i < |blocks| ==> blocks[i].Block?) && Enclose(nodes, blocks, node)
      && node.Unit? && leaf.id == node.id && leaf.alias == node.alias && leaf.path == node.path
      && leaf.labels == labels + Labels(blocks);
    assert Enclose(more, blocks, node);
  }

  lemma {:induction false} LeavesAreUnits(nodes: seq<Nav>, labels: seq<string>, leaf: UnitLeaf)
    requires leaf in Leaves(nodes, labels)
    ensures IsLeafOf(nodes, labels, leaf)
    decreases nodes
  {
    var rest, last := nodes[..|nodes| - 1], nodes[|nodes| - 1];
    assert nodes == rest + [last];
    if leaf in Leaves(rest, labels) {
      LeavesAreUnits(rest, labels, leaf);
      AmongMore(rest, nodes, labels, leaf);
    } else if last.Block? {
      LeavesAreUnits(last.children, labels + [last.labelText], leaf);
      UnderBlock(nodes, last, labels, leaf);
    } else {
      OwnLeaf(nodes, last, labels, leaf);
    }
  }

  lemma OwnLeaf(nodes: seq<Nav>, node: Nav, labels: seq<string>, leaf: UnitLeaf)
    requires node in nodes && node.Unit? && leaf == UnitLeaf(node.id, node.alias, node.path, labels)
    ensures IsLeafOf(nodes, labels, leaf)
  {
    var none: seq<Nav> := [];
    assert labels + Labels(none) == labels;
    assert Enclose(nodes, none, node);
  }

  /** An occurrence of a booklet names a unit of its tree, by the name of the index if there is one, under
      the labels of the blocks around it. */
  lemma OccurrencesAreUnits(env: Env, b: ReviewBooklet, ids: set<string>, k: nat)
    requires Sound(env, b, ids) && k < |b.units|
    ensures k < |UnitPaths(b.draft.children)|
    ensures var o := b.units[k];
      && IsLeafOf(b.draft.children, [], UnitLeaf(o.id, o.alias, UnitPaths(b.draft.children)[k], o.blockPath))
      && o.occurrenceId == ItemRowKey.Encode(b.draft.id) + ":" + UnitPaths(b.draft.children)[k]
      && (o.name == o.id || (o.id in env.unitNames && o.name == env.unitNames[o.id]))
      && (o.id in env.unitNames && env.unitNames[o.id] != "" ==> o.name == env.unitNames[o.id])
  {
    LeafPaths(b.draft.children, []);
    LeavesAreUnits(b.draft.children, [], Leaves(b.draft.children, [])[k]);
  }

  ghost predicate TellsApart(linkId: (string, seq<Identity>, nat) -> string) {
    forall a, b, s, t, k, l :: linkId(a, s, k) == linkId(b, t, l) ==> a == b && s == t && k == l
  }

  /** As long as digests differ, equal links belong to the same place of booklets with the same id and the
      same navigation identity. */
  lemma LinksTellApart(env: Env, a: Draft, b: Draft, k: nat, l: nat)
    requires TellsApart(env.linkId)
    requires k < |Leaves(a.children, [])| && l < |Leaves(b.children, [])|
    ensures Occurrences(env, a, Leaves(a.children, []), 0)[k].linkId == Occurrences(env, b, Leaves(b.children, []), 0)[l].linkId
       <==> a.id == b.id && NavigationIdentity(a.children) == NavigationIdentity(b.children) && k == l
  {
  }

  // ----------------------------------------------------------------------- entries of the index

  /** The booklet of an entry with a definition: its id and, if the index gives none, its name are those
      of the document, and its units are those of the document in document order. */
  ghost predicate ListsDefinition(root: Xml, entry: IndexBooklet, b: ReviewBooklet) {
    && !b.draft.legacy && b.draft.definitionId == entry.definitionId && b.draft.moduleIds == TrimAll(entry.modules)
    && b.draft.id != "" && MetadataSays(root, "Id", b.draft.id) && (entry.id != "" ==> b.draft.id == entry.id)
    && (if entry.name != "" then b.draft.name == entry.name
        else MetadataSays(root, "Label", b.draft.name)
             || (b.draft.name == b.draft.id && forall text :: text != "" ==> !MetadataSays(root, "Label", text)))
    && exists u :: IsFirst(root.children, "Units", u) && ListsUnits(UnitsInDocument(root.children[u].children), b.units)
  }

  ghost predicate ListsUnits(ids: seq<string>, units: seq<Occurrence>) {
    |units| == |ids| && forall k :: 0 <= k < |ids| ==> units[k].id == ids[k]
  }

  /** A booklet is added at the end; the units that the index does not know are reported. */
  ghost predicate Adds(env: Env, m: Manifest, m': Manifest, b: ReviewBooklet) {
    && m'.booklets == m.booklets + [b] && m.issues <= m'.issues
    && (forall i :: |m.issues| <= i < |m'.issues| ==> m'.issues[i].Error?)
    && (|m'.issues| == |m.issues| <==> forall k :: 0 <= k < |b.units| ==> b.units[k].id in env.unitNames)
  }

  /** Nothing is added but one error. */
  ghost predicate Refuses(m: Manifest, m': Manifest) {
    && m'.booklets == m.booklets && m'.bookletIds == m.bookletIds
    && |m'.issues| == |m.issues| + 1 && m.issues <= m'.issues && m'.issues[|m.issues|].Error?
  }

  lemma {:induction false} UnknownAreReported(env: Env, leaves: seq<UnitLeaf>)
    ensures forall i :: 0 <= i < |UnknownUnits(env, leaves)| ==> UnknownUnits(env, leaves)[i].Error?
    ensures UnknownUnits(env, leaves) == [] <==> forall k :: 0 <= k < |leaves| ==> leaves[k].id in env.unitNames
  {
    if leaves != [] {
      var n := |leaves| - 1;
      UnknownAreReported(env, leaves[..n]);
      assert forall k :: 0 <= k < n ==> leaves[..n][k] == leaves[k];
    }
  }

  lemma UnknownUnitsAre(env: Env, d: Draft)
    ensures var issues, units := UnknownUnits(env, Leaves(d.children, [])), Occurrences(env, d, Leaves(d.children, []), 0);
      && (forall i :: 0 <= i < |issues| ==> issues[i].Error?)
      && (issues == [] <==> forall k :: 0 <= k < |units| ==> units[k].id in env.unitNames)
  {
    var leaves := Leaves(d.children, []);
    var units := Occurrences(env, d, leaves, 0);
    UnknownAreReported(env, leaves);
    forall k | 0 <= k < |leaves| ensures units[k].id == leaves[k].id { }
    assert (forall k :: 0 <= k < |units| ==> units[k].id in env.unitNames) <==> forall k :: 0 <= k < |leaves| ==> leaves[k].id in env.unitNames;
  }

  lemma IssuesAreAdded(env: Env, m: Manifest, m': Manifest, b: ReviewBooklet, issues: seq<Issue>)
    requires m'.booklets == m.booklets + [b] && m'.issues == m.issues + issues && forall i :: 0 <= i < |issues| ==> issues[i].Error?
    requires issues == [] <==> forall k :: 0 <= k < |b.units| ==> b.units[k].id in env.unitNames
    ensures Adds(env, m, m', b)
  {
  }

  lemma DraftIsAdded(env: Env, m: Manifest, d: Draft, path: string)
    ensures var m' := AddDraft(env, m, d, path);
      if d.id == "" || (!d.legacy && d.id in m.bookletIds) then Refuses(m, m')
      else Adds(env, m, m', ReviewBooklet(d, Occurrences(env, d, Leaves(d.children, []), 0)))
  {
    UnknownUnitsAre(env, d);
    if d.id != "" && (d.legacy || d.id !in m.bookletIds) {
      IssuesAreAdded(env, m, AddDraft(env, m, d, path), ReviewBooklet(d, Occurrences(env, d, Leaves(d.children, []), 0)),
                     UnknownUnits(env, Leaves(d.children, [])));
    }
  }

  /** What becomes of a booklet that is to be added after some reports. */
  lemma DraftIsApplied(env: Env, m: Manifest, t: Treatment, d: Draft, path: string)
    requires t.draft == Some(d)
    ensures var m' := Apply(env, m, t, path);
      && m.issues <= m'.issues
      && if d.id == "" || (!d.legacy && d.id in m.bookletIds) then m'.booklets == m.booklets && m.issues < m'.issues
         else m'.booklets == m.booklets + [ReviewBooklet(d, Occurrences(env, d, Leaves(d.children, []), 0))]
  {
  }

  lemma DefinitionUnits(env: Env, d: Draft, root: Xml, u: int)
    requires IsFirst(root.children, "Units", u) && UnitsOf(NavigationIdentity(d.children)) == UnitsInDocument(root.children[u].children)
    ensures ListsUnits(UnitsInDocument(root.children[u].children), Occurrences(env, d, Leaves(d.children, []), 0))
  {
    IdentityFixesUnits(d.children, []);
  }

  /** The definition says another id than the index, or it is no booklet. */
  ghost predicate Contradicts(root: Xml, entry: IndexBooklet, source: string) {
    ParseBooklet(root, source).Err? || (entry.id != "" && !MetadataSays(root, "Id", entry.id))
  }

  /** An entry becomes a booklet, or there is a booklet with its id already. */
  ghost predicate IsListed(env: Env, m: Manifest, m': Manifest, root: Xml, entry: IndexBooklet) {
    || (Refuses(m, m') && exists id :: MetadataSays(root, "Id", id) && id in m.bookletIds)
    || exists b :: Adds(env, m, m', b) && ListsDefinition(root, entry, b) && b.draft.id !in m.bookletIds
  }

  lemma ReportedIsListed(env: Env, root: Xml, u: int, parsed: Booklet, entry: IndexBooklet, b: ReviewBooklet)
    requires IsFirst(root.children, "Units", u) && Reports(root, u, parsed) && (entry.id == "" || entry.id == parsed.id)
    requires b.draft == Draft(parsed.id, if entry.name != "" then entry.name else parsed.labelText, entry.definitionId, parsed.children, false, TrimAll(entry.modules))
    requires b.units == Occurrences(env, b.draft, Leaves(b.draft.children, []), 0)
    ensures ListsDefinition(root, entry, b)
  {
    DefinitionUnits(env, b.draft, root, u);
  }

  lemma ParsedIsListed(env: Env, m: Manifest, root: Xml, u: int, parsed: Booklet, entry: IndexBooklet, path: string, d: Draft, m': Manifest)
    requires IsFirst(root.children, "Units", u) && Reports(root, u, parsed) && (entry.id == "" || entry.id == parsed.id)
    requires d == Draft(parsed.id, if entry.name != "" then entry.name else parsed.labelText, entry.definitionId, parsed.children, false, TrimAll(entry.modules))
    requires m' == AddDraft(env, m, d, path)
    ensures IsListed(env, m, m', root, entry)
  {
    DraftIsAdded(env, m, d, path);
    var b := ReviewBooklet(d, Occurrences(env, d, Leaves(d.children, []), 0));
    ReportedIsListed(env, root, u, parsed, entry, b);
    assert MetadataSays(root, "Id", d.id);
  }

  lemma RefusedDefinition(env: Env, m: Manifest, issue: Issue, path: string, m': Manifest)
    requires issue.Error? && m' == Apply(env, m, Treatment([issue], None), path)
    ensures Refuses(m, m')
  {
  }

  /** What becomes of an entry with a definition. */
  lemma DefinitionIsListed(env: Env, m: Manifest, modules: seq<Module>, definitions: map<string, Xml>, entry: IndexBooklet, path: string)
    requires entry.definitionId != "" && entry.definitionId in definitions
    ensures var root, m' := definitions[entry.definitionId], Apply(env, m, Treat(env, modules, definitions, entry, path), path);
      if Contradicts(root, entry, path + ".definitionId(" + entry.definitionId + ")") then Refuses(m, m')
      else IsListed(env, m, m', root, entry)
  {
    var root, source := definitions[entry.definitionId], path + ".definitionId(" + entry.definitionId + ")";
    AcceptedBooklets(root, source);
    DefinitionIsApplied(env, m, root, entry, path, ParseBooklet(root, source), Apply(env, m, Treat(env, modules, definitions, entry, path), path));
  }

  lemma DefinitionIsApplied(env: Env, m: Manifest, root: Xml, entry: IndexBooklet, path: string, parsed: Result<Booklet, StructureError>, m': Manifest)
    requires parsed == ParseBooklet(root, path + ".definitionId(" + entry.definitionId + ")")
    requires parsed.Ok? ==> exists u :: IsFirst(root.children, "Units", u) && Reports(root, u, parsed.value)
    requires m' == Apply(env, m, FromDefinition(root, entry, path), path)
    ensures if parsed.Err? || (entry.id != "" && !MetadataSays(root, "Id", entry.id)) then Refuses(m, m') else IsListed(env, m, m', root, entry)
  {
    match parsed
    case Err(e) => RefusedDefinition(env, m, Error(e.path, e.message), path, m');
    case Ok(booklet) =>
      var u :| IsFirst(root.children, "Units", u) && Reports(root, u, booklet);
      if entry.id != "" { IdIsFixed(root, entry.id, booklet.id); }
      if entry.id != "" && entry.id != booklet.id {
        RefusedDefinition(env, m, FromDefinition(root, entry, path).issues[0], path, m');
      } else {
        assert m.issues + [] == m.issues;
        ParsedIsListed(env, m, root, u, booklet, entry, path, FromDefinition(root, entry, path).draft.value, m');
      }
  }

  lemma IdIsFixed(root: Xml, a: string, b: string)
    requires a != "" && b != "" && MetadataSays(root, "Id", b)
    ensures MetadataSays(root, "Id", a) <==> a == b
  {
    MetadataIs(root, "Id", a);
    MetadataIs(root, "Id", b);
  }

  // ------------------------------------------------------------------------------ of modules

  /** The ids of the modules that are referred to and there, in the order of the references. */
  function KnownRefs(modules: seq<Module>, refs: seq<string>): seq<string> {
    if refs == [] then []
    else
      var id := Trim(refs[|refs| - 1]);
      KnownRefs(modules, refs[..|refs| - 1]) + if exists i :: 0 <= i < |modules| && modules[i].id == id then [id] else []
  }

  /** The block of a module has its units, sorted by their order. */
  ghost predicate BlockOf(env: Env, found: Module, node: Nav) {
    && node.Block? && node.id == found.id && node.labelText == (if found.name != "" then found.name else found.id)
    && |node.children| == |found.units|
    && exists units: seq<ModuleUnit> ::
         && multiset(units) == multiset(found.units) && Sorted(units, UnitOrder())
         && |units| == |node.children| && forall i :: 0 <= i < |units| ==> UnitFor(env, units[i], node.children[i])
  }

  ghost predicate UnitFor(env: Env, unit: ModuleUnit, node: Nav) {
    && node.Unit? && node.id == Trim(unit.reference) && node.alias == unit.alias
    && node.labelText == (if node.id in env.unitNames && env.unitNames[node.id] != "" then env.unitNames[node.id] else node.id)
  }

  ghost predicate IsModule(modules: seq<Module>, id: string, found: Module) {
    exists i :: 0 <= i < |modules| && modules[i] == found && found.id == id && forall j :: 0 <= j < i ==> modules[j].id != id
  }

  lemma {:induction false} FindsModule(modules: seq<Module>, id: string)
    ensures FindModule(modules, id).Some? <==> exists i :: 0 <= i < |modules| && modules[i].id == id
    ensures FindModule(modules, id).Some? ==> IsModule(modules, id, FindModule(modules, id).value)
  {
    if modules != [] {
      if modules[0].id != id {
        FindsModule(modules[1..], id);
        if FindModule(modules[1..], id).Some? {
          var found := FindModule(modules[1..], id).value;
          var i :| 0 <= i < |modules[1..]| && modules[1..][i] == found && found.id == id && forall j :: 0 <= j < i ==> modules[1..][j].id != id;
          assert modules[i + 1] == found;
          forall j | 0 <= j < i + 1 ensures modules[j].id != id { if j > 0 { assert modules[1..][j - 1].id != id; } }
        }
        if i :| 0 <= i < |modules| && modules[i].id == id { assert modules[1..][i - 1].id == id; }
      }
    }
  }

  lemma ModuleIsBlock(env: Env, found: Module, modulePath: string)
    ensures BlockOf(env, found, ModuleNode(env, found, found.id, modulePath))
  {
    var units, le := Sort(found.units, UnitOrder()), UnitOrder();
    assert TotalPreorder(le);
    SortMultiset(found.units, le);
    SortSorts(found.units, le);
    var node := ModuleNode(env, found, found.id, modulePath);
    assert |units| == |found.units| by { assert |multiset(units)| == |multiset(found.units)|; }
    forall i | 0 <= i < |units| ensures UnitFor(env, units[i], node.children[i]) { }
  }

  ghost predicate IsBlockOf(env: Env, modules: seq<Module>, id: string, node: Nav) {
    exists found :: IsModule(modules, id, found) && BlockOf(env, found, node)
  }

  /** References to modules become their blocks, in the order of the references; the others are reported. */
  lemma {:induction false} ModuleNodesAre(env: Env, modules: seq<Module>, refs: seq<string>, path: string)
    ensures var (nodes, issues) := ModuleNodes(env, modules, refs, path);
      && |nodes| == |KnownRefs(modules, refs)| && |issues| == |refs| - |nodes|
      && (forall k :: 0 <= k < |nodes| ==> IsBlockOf(env, modules, KnownRefs(modules, refs)[k], nodes[k]))
      && forall i :: 0 <= i < |issues| ==> issues[i].Error?
  {
    if refs != [] {
      var n := |refs| - 1;
      var id, modulePath := Trim(refs[n]), path + "[" + Decimal(n) + "]";
      ModuleNodesAre(env, modules, refs[..n], path);
      FindsModule(modules, id);
      match FindModule(modules, id)
      case None =>
      case Some(found) =>
        ModuleIsBlock(env, found, modulePath);
        assert IsBlockOf(env, modules, id, ModuleNode(env, found, id, modulePath));
    }
  }

  /** A booklet that shows the blocks of the modules that are referred to. */
  ghost predicate ListsModules(env: Env, modules: seq<Module>, refs: seq<string>, b: ReviewBooklet) {
    && |b.draft.children| == |KnownRefs(modules, refs)|
    && forall k :: 0 <= k < |b.draft.children| ==> IsBlockOf(env, modules, KnownRefs(modules, refs)[k], b.draft.children[k])
  }

  /** A booklet without an id in the index is marked as legacy and named by its place. */
  ghost predicate ListsEntry(entry: IndexBooklet, path: string, b: ReviewBooklet) {
    && (b.draft.legacy <==> entry.id == "") && b.draft.id == (if entry.id != "" then entry.id else "legacy:" + path)
    && (entry.name != "" ==> b.draft.name == entry.name) && (entry.name == "" && entry.id != "" ==> b.draft.name == entry.id)
    && b.draft.definitionId == entry.definitionId && b.draft.moduleIds == TrimAll(entry.modules)
  }

  lemma DraftOfModules(env: Env, m: Manifest, modules: seq<Module>, entry: IndexBooklet, path: string, t: Treatment, d: Draft, m': Manifest)
    requires t == FromModules(env, modules, entry, path) && t.draft == Some(d) && m' == Apply(env, m, t, path)
    ensures if entry.id != "" && entry.id in m.bookletIds then m'.booklets == m.booklets && m.issues < m'.issues
      else
        m.issues <= m'.issues &&
        exists b :: m'.booklets == m.booklets + [b] && ListsModules(env, modules, entry.modules, b) && ListsEntry(entry, path, b)
  {
    ModuleNodesAre(env, modules, entry.modules, path + ".modules");
    DraftIsApplied(env, m, t, d, path);
    var b := ReviewBooklet(d, Occurrences(env, d, Leaves(d.children, []), 0));
    assert d == ModulesDraft(entry, ModuleNodes(env, modules, entry.modules, path + ".modules").0, path);
    assert ListsModules(env, modules, entry.modules, b);
    EntryIsListed(entry, d.children, path, b);
    assert |"legacy:"| > 0 && d.id != "";
  }

  lemma EntryIsListed(entry: IndexBooklet, nodes: seq<Nav>, path: string, b: ReviewBooklet)
    requires b.draft == ModulesDraft(entry, nodes, path)
    ensures ListsEntry(entry, path, b) && b.draft.id != "" && (b.draft.legacy <==> entry.id == "")
  {
    assert |"legacy:" + path| > 0;
  }

  /** What becomes of an entry that has no definition. */
  lemma ModulesAreListed(env: Env, m: Manifest, modules: seq<Module>, definitions: map<string, Xml>, entry: IndexBooklet, path: string)
    requires !(entry.definitionId != "" && entry.definitionId in definitions)
    ensures var m' := Apply(env, m, Treat(env, modules, definitions, entry, path), path);
      if entry.modules == [] then Refuses(m, m')
      else if entry.id != "" && entry.id in m.bookletIds then m'.booklets == m.booklets && m.issues < m'.issues
      else
        m.issues <= m'.issues &&
        exists b :: m'.booklets == m.booklets + [b] && ListsModules(env, modules, entry.modules, b) && ListsEntry(entry, path, b)
  {
    if entry.modules != [] {
      var t := Treat(env, modules, definitions, entry, path);
      DraftOfModules(env, m, modules, entry, path, t, t.draft.value, Apply(env, m, t, path));
    }
  }

  /** A module to which no entry refers becomes a legacy booklet of its own. */
  lemma UnassignedIsListed(env: Env, m: Manifest, modules: seq<Module>, bookletModule: Module, path: string)
    ensures var m' := Apply(env, m, FromUnassigned(env, modules, bookletModule, path), path);
      if bookletModule.id == "" then m'.booklets == m.booklets && m.issues < m'.issues
      else
        m.issues <= m'.issues &&
        exists b :: m'.booklets == m.booklets + [b] && ListsModules(env, modules, [bookletModule.id], b) && b.draft.legacy && b.draft.id == bookletModule.id
  {
    ModuleNodesAre(env, modules, [bookletModule.id], path);
    var t := FromUnassigned(env, modules, bookletModule, path);
    var d := t.draft.value;
    DraftIsApplied(env, m, t, d, path);
    var b := ReviewBooklet(d, Occurrences(env, d, Leaves(d.children, []), 0));
    assert ListsModules(env, modules, [bookletModule.id], b);
  }

  // ------------------------------------------------------------------------- the whole manifest

  /** Booklets and reports are only added. */
  ghost predicate Extends(m: Manifest, m': Manifest) {
    m.booklets <= m'.booklets && m.issues <= m'.issues && m.bookletIds <= m'.bookletIds
  }

  lemma ApplyExtends(env: Env, m: Manifest, t: Treatment, path: string)
    ensures Extends(m, Apply(env, m, t, path))
  {
  }

  lemma {:induction false} EntriesExtend(env: Env, m: Manifest, modules: seq<Module>, definitions: map<string, Xml>, entries: seq<Entry>)
    ensures Extends(m, AfterEntries(env, m, modules, definitions, entries))
  {
    if entries != [] {
      var e, before := entries[|entries| - 1], AfterEntries(env, m, modules, definitions, entries[..|entries| - 1]);
      EntriesExtend(env, m, modules, definitions, entries[..|entries| - 1]);
      ApplyExtends(env, before, Treat(env, modules, definitions, e.booklet, e.path), e.path);
    }
  }

  lemma {:induction false} ModulesExtend(env: Env, m: Manifest, modules: seq<Module>, referenced: set<string>, prefix: string, n: nat)
    requires n <= |modules|
    ensures Extends(m, AfterModules(env, m, modules, referenced, prefix, n))
  {
    if n > 0 {
      var before, path := AfterModules(env, m, modules, referenced, prefix, n - 1), prefix + ".bookletModules[" + Decimal(n - 1) + "]";
      ModulesExtend(env, m, modules, referenced, prefix, n - 1);
      ApplyExtends(env, before, FromUnassigned(env, modules, modules[n - 1], path), path);
    }
  }

  lemma PartExtends(env: Env, m: Manifest, part: Part, definitions: map<string, Xml>, prefix: string)
    ensures Extends(m, AfterPart(env, m, part, definitions, prefix))
  {
    var entries := EntriesOf(part.instruments, prefix);
    EntriesExtend(env, m, part.modules, definitions, entries);
    ModulesExtend(env, AfterEntries(env, m, part.modules, definitions, entries), part.modules, Referenced(entries), prefix, |part.modules|);
  }

  lemma LastPartExtends(env: Env, parts: seq<Part>, definitions: map<string, Xml>)
    requires parts != []
    ensures Extends(AfterParts(env, parts[..|parts| - 1], definitions), AfterParts(env, parts, definitions))
  {
    var n := |parts| - 1;
    PartExtends(env, AfterParts(env, parts[..n], definitions), parts[n], definitions, "assessmentParts[" + Decimal(n) + "]");
  }

  lemma {:induction false} LaterPartsExtend(env: Env, parts: seq<Part>, definitions: map<string, Xml>, p: nat)
    requires p <= |parts|
    ensures Extends(AfterParts(env, parts[..p], definitions), AfterParts(env, parts, definitions))
    decreases |parts|
  {
    var n := |parts| - 1;
    if p == |parts| {
      assert parts[..p] == parts;
    } else {
      assert parts[..n][..p] == parts[..p];
      LaterPartsExtend(env, parts[..n], definitions, p);
      LastPartExtends(env, parts, definitions);
      ExtendsOn(AfterParts(env, parts[..p], definitions), AfterParts(env, parts[..n], definitions), AfterParts(env, parts, definitions));
    }
  }

  /** The entry has been treated on the way to the manifest. */
  ghost predicate Treated(env: Env, modules: seq<Module>, definitions: map<string, Xml>, e: Entry, result: Manifest) {
    exists m :: Extends(Apply(env, m, Treat(env, modules, definitions, e.booklet, e.path), e.path), result)
  }

  lemma {:induction false} EntryIsTreated(env: Env, m: Manifest, modules: seq<Module>, definitions: map<string, Xml>, entries: seq<Entry>, e: Entry)
    requires e in entries
    ensures Treated(env, modules, definitions, e, AfterEntries(env, m, modules, definitions, entries))
  {
    var rest, last := entries[..|entries| - 1], entries[|entries| - 1];
    var before := AfterEntries(env, m, modules, definitions, rest);
    assert entries == rest + [last];
    if e == last {
      assert Extends(Apply(env, before, Treat(env, modules, definitions, e.booklet, e.path), e.path), AfterEntries(env, m, modules, definitions, entries));
    } else {
      EntryIsTreated(env, m, modules, definitions, rest, e);
      ApplyExtends(env, before, Treat(env, modules, definitions, last.booklet, last.path), last.path);
      StillTreated(env, modules, definitions, e, before, AfterEntries(env, m, modules, definitions, entries));
    }
  }

  lemma StillTreated(env: Env, modules: seq<Module>, definitions: map<string, Xml>, e: Entry, m: Manifest, result: Manifest)
    requires Treated(env, modules, definitions, e, m) && Extends(m, result)
    ensures Treated(env, modules, definitions, e, result)
  {
    var m0 :| Extends(Apply(env, m0, Treat(env, modules, definitions, e.booklet, e.path), e.path), m);
    ExtendsOn(Apply(env, m0, Treat(env, modules, definitions, e.booklet, e.path), e.path), m, result);
  }

  lemma ExtendsOn(a: Manifest, b: Manifest, c: Manifest)
    requires Extends(a, b) && Extends(b, c)
    ensures Extends(a, c)
  {
  }

  lemma {:induction false} InstrumentEntries(instruments: seq<seq<IndexBooklet>>, prefix: string, i: nat, b: nat)
    requires i < |instruments| && b < |instruments[i]|
    ensures Entry(instruments[i][b], prefix + ".instruments[" + Decimal(i) + "].testcenterBooklet[" + Decimal(b) + "]") in EntriesOf(instruments, prefix)
  {
    var n := |instruments| - 1;
    var before := EntriesOf(instruments[..n], prefix);
    if i < n {
      InstrumentEntries(instruments[..n], prefix, i, b);
    } else {
      assert EntriesOf(instruments, prefix)[|before| + b]
        == Entry(instruments[i][b], prefix + ".instruments[" + Decimal(i) + "].testcenterBooklet[" + Decimal(b) + "]");
    }
  }

  /** Every booklet entry of every instrument of every part is treated, and what becomes of it stays in the
      manifest. */
  lemma EveryEntryIsTreated(env: Env, parts: seq<Part>, definitions: map<string, Xml>, p: nat, i: nat, b: nat)
    requires p < |parts| && i < |parts[p].instruments| && b < |parts[p].instruments[i]|
    ensures exists e: Entry :: e.booklet == parts[p].instruments[i][b]
                            && Treated(env, parts[p].modules, definitions, e, AfterParts(env, parts, definitions))
  {
    var part, prefix, m := parts[p], "assessmentParts[" + Decimal(p) + "]", AfterParts(env, parts[..p], definitions);
    var entries := EntriesOf(part.instruments, prefix);
    var e := Entry(part.instruments[i][b], prefix + ".instruments[" + Decimal(i) + "].testcenterBooklet[" + Decimal(b) + "]");
    InstrumentEntries(part.instruments, prefix, i, b);
    var entered := AfterEntries(env, m, part.modules, definitions, entries);
    EntryIsTreated(env, m, part.modules, definitions, entries, e);
    ModulesExtend(env, entered, part.modules, Referenced(entries), prefix, |part.modules|);
    assert parts[..p + 1][..p] == parts[..p];
    LaterPartsExtend(env, parts, definitions, p + 1);
    ExtendsOn(entered, AfterParts(env, parts[..p + 1], definitions), AfterParts(env, parts, definitions));
    StillTreated(env, part.modules, definitions, e, entered, AfterParts(env, parts, definitions));
  }
}
