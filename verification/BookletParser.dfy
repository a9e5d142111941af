/** backend/src/review/booklet-parser.ts: the navigation tree of a booklet, from its XML tree.
    A block is written either as a nested Testlet element or as a pair of ProgressStart and
    ProgressEnd elements among its siblings. */
module BookletParser {
  import opened JsMaps
  import opened Outcomes
  import opened Text

  datatype Xml = Xml(name: string, attributes: map<string, string>, text: string, children: seq<Xml>)

  datatype Nav =
    | Block(id: string, labelText: string, path: string, children: seq<Nav>)
    | Unit(id: string, labelText: string, alias: Option<string>, path: string)

  datatype StructureError = StructureError(path: string, message: string)

  // ---------------------------------------------------------------------------- paths

  /** How many of the first `i` siblings have this name. */
  function CountNamed(siblings: seq<Xml>, name: string, i: nat): nat
    requires i <= |siblings|
  {
    if i == 0 then 0
    else CountNamed(siblings, name, i - 1) + if siblings[i - 1].name == name then 1 else 0
  }

  /** The path the open-tag handler gives to the child at position `i`. */
  function ChildPath(path: string, siblings: seq<Xml>, i: nat): string
    requires i < |siblings|
  {
    path + "/" + siblings[i].name + "[" + Decimal(CountNamed(siblings, siblings[i].name, i)) + "]"
  }

  // -------------------------------------------------------------------- reading a container

  /** The nodes read so far: those of the container, and above them the children of the blocks
      whose marker is open. */
  datatype Stack =
    | Bottom(nodes: seq<Nav>)
    | Opened(outer: Stack, id: string, labelText: string, path: string, nodes: seq<Nav>)

  datatype State = State(stack: Stack, blockIds: set<string>)

  function Push(stack: Stack, node: Nav): Stack { stack.(nodes := stack.nodes + [node]) }

  function TrimmedId(node: Xml): string {
    if "id" in node.attributes then Trim(node.attributes["id"]) else ""
  }

  function LabelOr(node: Xml, fallback: string): string {
    if "label" in node.attributes && node.attributes["label"] != "" then node.attributes["label"] else fallback
  }

  /** The first marker still open. */
  function OldestOpen(stack: Stack): string
    requires stack.Opened?
  {
    if stack.outer.Bottom? then stack.path else OldestOpen(stack.outer)
  }

  /** `navigation` for one container, with the block ids used before and after. */
  function Contents(container: Xml, path: string, used: set<string>): Result<(seq<Nav>, set<string>), StructureError>
    decreases container, |container.children| + 1, 0
  {
    match Navigate(container, path, 0, State(Bottom([]), used))
    case Err(e) => Err(e)
    case Ok(st) =>
      if st.stack.Opened? then Err(StructureError(OldestOpen(st.stack), "Fortschrittsblock wurde nicht geschlossen."))
      else Ok((st.stack.nodes, st.blockIds))
  }

  function Navigate(container: Xml, path: string, i: nat, st: State): Result<State, StructureError>
    requires i <= |container.children|
    decreases container, |container.children| - i, 1
  {
    if i == |container.children| then Ok(st)
    else
      match Step(container, path, i, st)
      case Err(e) => Err(e)
      case Ok(next) => Navigate(container, path, i + 1, next)
  }

  function Step(container: Xml, path: string, i: nat, st: State): Result<State, StructureError>
    requires i < |container.children|
    decreases container, |container.children| - i, 0
  {
    var node := container.children[i];
    var nodePath := ChildPath(path, container.children, i);
    if node.name == "Restrictions" then Ok(st)
    else if node.name == "ProgressStart" then
      var id := TrimmedId(node);
      if id == "" || id in st.blockIds then Err(StructureError(nodePath, "Block-ID fehlt oder ist doppelt."))
      else Ok(State(Opened(st.stack, id, LabelOr(node, id), nodePath, []), st.blockIds + {id}))
    else if node.name == "ProgressEnd" then
      if !st.stack.Opened? || ("id" in node.attributes && node.attributes["id"] != "" && node.attributes["id"] != st.stack.id)
      then Err(StructureError(nodePath, "Fortschrittsmarker ist nicht passend geöffnet."))
      else if st.stack.nodes == [] then Err(StructureError(nodePath, "Leerer Fortschrittsblock."))
      else Ok(st.(stack := Push(st.stack.outer, Block(st.stack.id, st.stack.labelText, st.stack.path, st.stack.nodes))))
    else if node.name == "Testlet" then
      var id := TrimmedId(node);
      if id == "" || id in st.blockIds then Err(StructureError(nodePath, "Block-ID fehlt oder ist doppelt."))
      else
        match Contents(node, nodePath, st.blockIds + {id})
        case Err(e) => Err(e)
        case Ok((nodes, used)) => Ok(State(Push(st.stack, Block(id, LabelOr(node, id), nodePath, nodes)), used))
    else if node.name == "Unit" then
      var id := TrimmedId(node);
      if id == "" then Err(StructureError(nodePath, "Unit-ID fehlt."))
      else Ok(st.(stack := Push(st.stack, Unit(id, LabelOr(node, id), Get(node.attributes, "alias"), nodePath))))
    else Err(StructureError(nodePath, "Unbekanntes Navigationselement: " + node.name))
  }

  // ----------------------------------------------------------------- navigation identity

  /** What remains of a navigation tree without labels and paths. */
  datatype Identity = BlockIdentity(id: string, children: seq<Identity>) | UnitIdentity(id: string, alias: Option<string>)

  function IdentityOf(node: Nav): Identity {
    match node
    case Block(id, _, _, children) => BlockIdentity(id, NavigationIdentity(children))
    case Unit(id, _, alias, _) => UnitIdentity(id, alias)
  }

  function NavigationIdentity(nodes: seq<Nav>): seq<Identity> {
    if nodes == [] then []
    else NavigationIdentity(nodes[..|nodes| - 1]) + [IdentityOf(nodes[|nodes| - 1])]
  }

  // ------------------------------------------------------------------- writing a container

  /** A forest together with the choice of an encoding for every block. */
  datatype Doc =
    | Ignored(element: Xml)
    | Leaf(element: Xml)
    | Nested(attributes: map<string, string>, text: string, docs: seq<Doc>)
    | Flat(start: Xml, docs: seq<Doc>, end: Xml)

  function Write(d: Doc): seq<Xml> {
    match d
    case Ignored(element) => [element]
    case Leaf(element) => [element]
    case Nested(_, _, _) => [NestedElement(d)]
    case Flat(start, docs, end) => [start] + WriteAll(docs) + [end]
  }

  function NestedElement(d: Doc): Xml
    requires d.Nested?
    decreases d, 0
  {
    Xml("Testlet", d.attributes, d.text, WriteAll(d.docs))
  }

  function WriteAll(docs: seq<Doc>): seq<Xml> {
    if docs == [] then [] else WriteAll(docs[..|docs| - 1]) + Write(docs[|docs| - 1])
  }

  ghost predicate Closes(end: Xml, start: Xml) {
    && end.name == "ProgressEnd"
    && ("id" in end.attributes && end.attributes["id"] != "" ==> end.attributes["id"] == TrimmedId(start))
  }

  /** Elements of the right kinds, with ids; a flat block has at least one block or unit. */
  ghost predicate WellFormed(d: Doc) {
    match d
    case Ignored(element) => element.name == "Restrictions"
    case Leaf(element) => element.name == "Unit" && TrimmedId(element) != ""
    case Nested(_, _, docs) => TrimmedId(NestedElement(d)) != "" && AllWellFormed(docs)
    case Flat(start, docs, end) =>
      && start.name == "ProgressStart" && TrimmedId(start) != "" && Closes(end, start)
      && AllWellFormed(docs) && DocIdentities(docs) != []
  }

  ghost predicate AllWellFormed(docs: seq<Doc>) {
    docs == [] || (AllWellFormed(docs[..|docs| - 1]) && WellFormed(docs[|docs| - 1]))
  }

  function DocIdentity(d: Doc): seq<Identity> {
    match d
    case Ignored(_) => []
    case Leaf(element) => [UnitIdentity(TrimmedId(element), Get(element.attributes, "alias"))]
    case Nested(_, _, docs) => [BlockIdentity(TrimmedId(NestedElement(d)), DocIdentities(docs))]
    case Flat(start, docs, _) => [BlockIdentity(TrimmedId(start), DocIdentities(docs))]
  }

  function DocIdentities(docs: seq<Doc>): seq<Identity> {
    if docs == [] then [] else DocIdentities(docs[..|docs| - 1]) + DocIdentity(docs[|docs| - 1])
  }

  /** The block ids in the order in which they are met. */
  function BlockIds(d: Doc): seq<string> {
    match d
    case Ignored(_) => []
    case Leaf(_) => []
    case Nested(_, _, docs) => [TrimmedId(NestedElement(d))] + AllBlockIds(docs)
    case Flat(start, docs, _) => [TrimmedId(start)] + AllBlockIds(docs)
  }

  function AllBlockIds(docs: seq<Doc>): seq<string> {
    if docs == [] then [] else AllBlockIds(docs[..|docs| - 1]) + BlockIds(docs[|docs| - 1])
  }

  ghost predicate Fresh(ids: seq<string>, used: set<string>) {
    Distinct(ids) && forall id :: id in ids ==> id !in used
  }

  function SetOf(ids: seq<string>): set<string> { set id | id in ids }

  lemma FreshConcat(a: seq<string>, b: seq<string>, used: set<string>)
    ensures Fresh(a + b, used) <==> Fresh(a, used) && Fresh(b, used + SetOf(a))
    ensures used + SetOf(a + b) == used + SetOf(a) + SetOf(b)
  {
    if Fresh(a + b, used) {
      forall i, j | 0 <= i < j < |a| ensures a[i] != a[j] { assert (a + b)[i] == a[i] && (a + b)[j] == a[j]; }
      forall i, j | 0 <= i < j < |b| ensures b[i] != b[j] { assert (a + b)[|a| + i] == b[i] && (a + b)[|a| + j] == b[j]; }
      forall id | id in b ensures id !in used + SetOf(a) {
        assert id in a + b;
        if id in a {
          var i :| 0 <= i < |a| && a[i] == id;
          var j :| 0 <= j < |b| && b[j] == id;
          assert (a + b)[i] == (a + b)[|a| + j];
        }
      }
    }
    if Fresh(a, used) && Fresh(b, used + SetOf(a)) {
      forall i, j | 0 <= i < j < |a + b| ensures (a + b)[i] != (a + b)[j] {
        if i < |a| <= j { assert b[j - |a|] in b && a[i] in a; }
      }
    }
  }

  // ------------------------------------------------------------------- reading what was written

  ghost predicate WrittenAt(container: Xml, i: nat, written: seq<Xml>) {
    i + |written| <= |container.children| && container.children[i..i + |written|] == written
  }

  lemma WrittenSplit(container: Xml, i: nat, a: seq<Xml>, b: seq<Xml>)
    requires WrittenAt(container, i, a + b)
    ensures WrittenAt(container, i, a) && WrittenAt(container, i + |a|, b)
  {
    var c := container.children[i..i + |a + b|];
    assert c[..|a|] == a && c[|a|..] == b;
    assert container.children[i..i + |a|] == c[..|a|];
    assert container.children[i + |a|..i + |a| + |b|] == c[|a|..];
  }

  function PushAll(stack: Stack, nodes: seq<Nav>): Stack { stack.(nodes := stack.nodes + nodes) }

  /** Reading reaches the state behind the written forest, with its nodes pushed. */
  ghost predicate Reads(container: Xml, path: string, i: nat, written: seq<Xml>, st: State, nodes: seq<Nav>, ids: seq<string>) {
    && WrittenAt(container, i, written)
    && Navigate(container, path, i, st)
       == Navigate(container, path, i + |written|, State(PushAll(st.stack, nodes), st.blockIds + SetOf(ids)))
  }

  lemma ReadsCompose(container: Xml, path: string, i: nat, a: seq<Xml>, b: seq<Xml>, st: State,
                     nodesA: seq<Nav>, nodesB: seq<Nav>, idsA: seq<string>, idsB: seq<string>)
    requires WrittenAt(container, i, a + b)
    requires Reads(container, path, i, a, st, nodesA, idsA)
    requires Reads(container, path, i + |a|, b, State(PushAll(st.stack, nodesA), st.blockIds + SetOf(idsA)), nodesB, idsB)
    ensures Reads(container, path, i, a + b, st, nodesA + nodesB, idsA + idsB)
  {
    FreshConcat(idsA, idsB, st.blockIds);
    assert PushAll(PushAll(st.stack, nodesA), nodesB) == PushAll(st.stack, nodesA + nodesB) by {
      assert st.stack.nodes + nodesA + nodesB == st.stack.nodes + (nodesA + nodesB);
    }
    assert |a + b| == |a| + |b|;
  }

  lemma {:induction false} IdentityConcat(a: seq<Nav>, b: seq<Nav>)
    ensures NavigationIdentity(a + b) == NavigationIdentity(a) + NavigationIdentity(b)
  {
    if b == [] {
      assert a + b == a;
    } else {
      var n := |b| - 1;
      assert (a + b)[..|a + b| - 1] == a + b[..n];
      IdentityConcat(a, b[..n]);
    }
  }

  lemma {:induction false} ReadsForest(container: Xml, path: string, i: nat, docs: seq<Doc>, st: State) returns (nodes: seq<Nav>)
    requires AllWellFormed(docs) && Fresh(AllBlockIds(docs), st.blockIds)
    requires WrittenAt(container, i, WriteAll(docs))
    ensures Reads(container, path, i, WriteAll(docs), st, nodes, AllBlockIds(docs))
    ensures NavigationIdentity(nodes) == DocIdentities(docs)
    decreases docs, 0
  {
    if docs == [] {
      nodes := [];
      assert PushAll(st.stack, []) == st.stack;
      assert st.blockIds + SetOf([]) == st.blockIds;
    } else {
      var n := |docs| - 1;
      var a, b := WriteAll(docs[..n]), Write(docs[n]);
      var idsA, idsB := AllBlockIds(docs[..n]), BlockIds(docs[n]);
      WrittenSplit(container, i, a, b);
      FreshConcat(idsA, idsB, st.blockIds);
      var nodesA := ReadsForest(container, path, i, docs[..n], st);
      var mid := State(PushAll(st.stack, nodesA), st.blockIds + SetOf(idsA));
      var nodesB := ReadsDoc(container, path, i + |a|, docs[n], mid);
      ReadsCompose(container, path, i, a, b, st, nodesA, nodesB, idsA, idsB);
      IdentityConcat(nodesA, nodesB);
      nodes := nodesA + nodesB;
    }
  }

  lemma {:induction false} ReadsDoc(container: Xml, path: string, i: nat, d: Doc, st: State) returns (nodes: seq<Nav>)
    requires WellFormed(d) && Fresh(BlockIds(d), st.blockIds)
    requires WrittenAt(container, i, Write(d))
    ensures Reads(container, path, i, Write(d), st, nodes, BlockIds(d))
    ensures NavigationIdentity(nodes) == DocIdentity(d)
    decreases d, 1
  {
    match d
    case Ignored(element) =>
      nodes := [];
      assert container.children[i..i + 1][0] == element;
      assert PushAll(st.stack, []) == st.stack;
      assert st.blockIds + SetOf([]) == st.blockIds;
    case Leaf(element) =>
      assert container.children[i..i + 1][0] == element;
      var node := Unit(TrimmedId(element), LabelOr(element, TrimmedId(element)), Get(element.attributes, "alias"),
                       ChildPath(path, container.children, i));
      nodes := [node];
      assert st.blockIds + SetOf([]) == st.blockIds;
      assert [node][..0] == [];
    case Nested(_, _, docs) =>
      nodes := ReadsNested(container, path, i, d, st);
    case Flat(_, _, _) =>
      nodes := ReadsFlat(container, path, i, d, st);
  }

  lemma {:induction false} ReadsNested(container: Xml, path: string, i: nat, d: Doc, st: State) returns (nodes: seq<Nav>)
    requires d.Nested? && WellFormed(d) && Fresh(BlockIds(d), st.blockIds)
    requires WrittenAt(container, i, Write(d))
    ensures Reads(container, path, i, Write(d), st, nodes, BlockIds(d))
    ensures NavigationIdentity(nodes) == DocIdentity(d)
    decreases d, 0
  {
    var element := NestedElement(d);
    var id := TrimmedId(element);
    assert container.children[i..i + 1][0] == element;
    FreshConcat([id], AllBlockIds(d.docs), st.blockIds);
    assert SetOf([id]) == {id};
    assert id in [id];
    var nodePath := ChildPath(path, container.children, i);
    var inner := ContentsOfWritten(element, nodePath, d.docs, st.blockIds + {id});
    var node := Block(id, LabelOr(element, id), nodePath, inner);
    nodes := [node];
    assert [node][..0] == [];
  }

  /** A container that holds a written forest is accepted with the identity of that forest. */
  lemma {:induction false} ContentsOfWritten(container: Xml, path: string, docs: seq<Doc>, used: set<string>) returns (nodes: seq<Nav>)
    requires AllWellFormed(docs) && Fresh(AllBlockIds(docs), used) && container.children == WriteAll(docs)
    ensures Contents(container, path, used) == Ok((nodes, used + SetOf(AllBlockIds(docs))))
    ensures NavigationIdentity(nodes) == DocIdentities(docs)
    decreases docs, 1
  {
    assert container.children[0..|container.children|] == container.children;
    nodes := ReadsForest(container, path, 0, docs, State(Bottom([]), used));
    assert PushAll(Bottom([]), nodes) == Bottom(nodes);
  }

  lemma {:induction false} ReadsFlat(container: Xml, path: string, i: nat, d: Doc, st: State) returns (nodes: seq<Nav>)
    requires d.Flat? && WellFormed(d) && Fresh(BlockIds(d), st.blockIds)
    requires WrittenAt(container, i, Write(d))
    ensures Reads(container, path, i, Write(d), st, nodes, BlockIds(d))
    ensures NavigationIdentity(nodes) == DocIdentity(d)
    decreases d, 0
  {
    var id := TrimmedId(d.start);
    var w := WriteAll(d.docs);
    WrittenSplit(container, i, [d.start] + w, [d.end]);
    WrittenSplit(container, i, [d.start], w);
    assert container.children[i..i + 1][0] == d.start;
    var close := i + 1 + |w|;
    assert container.children[close..close + 1][0] == d.end;
    FreshConcat([id], AllBlockIds(d.docs), st.blockIds);
    assert SetOf([id]) == {id};
    assert id in [id];
    var nodePath := ChildPath(path, container.children, i);
    var begun := State(Opened(st.stack, id, LabelOr(d.start, id), nodePath, []), st.blockIds + {id});
    var inner := ReadsForest(container, path, i + 1, d.docs, begun);
    assert PushAll(begun.stack, inner).nodes == inner;
    assert inner != [];
    var node := Block(id, LabelOr(d.start, id), nodePath, inner);
    nodes := [node];
    assert [node][..0] == [];
    assert |Write(d)| == |w| + 2;
    CloseStep(container, path, close, d, State(PushAll(begun.stack, inner), begun.blockIds + SetOf(AllBlockIds(d.docs))));
  }

  lemma CloseStep(container: Xml, path: string, i: nat, d: Doc, st: State)
    requires d.Flat? && Closes(d.end, d.start) && i < |container.children| && container.children[i] == d.end
    requires st.stack.Opened? && st.stack.id == TrimmedId(d.start) && st.stack.nodes != []
    ensures Navigate(container, path, i, st)
      == Navigate(container, path, i + 1,
           State(PushAll(st.stack.outer, [Block(st.stack.id, st.stack.labelText, st.stack.path, st.stack.nodes)]), st.blockIds))
  {
  }

  // -------------------------------------------------------------- whatever is accepted was written

  /** The forest read so far, with the blocks whose marker is open. */
  datatype Frames =
    | Base(docs: seq<Doc>)
    | Inside(outer: Frames, start: Xml, docs: seq<Doc>)

  ghost function WrittenFrames(f: Frames): seq<Xml> {
    match f
    case Base(docs) => WriteAll(docs)
    case Inside(outer, start, docs) => WrittenFrames(outer) + [start] + WriteAll(docs)
  }

  ghost function FrameIds(f: Frames): seq<string> {
    match f
    case Base(docs) => AllBlockIds(docs)
    case Inside(outer, start, docs) => FrameIds(outer) + [TrimmedId(start)] + AllBlockIds(docs)
  }

  ghost predicate Explains(f: Frames, stack: Stack) {
    && AllWellFormed(f.docs) && NavigationIdentity(stack.nodes) == DocIdentities(f.docs)
    && match f
       case Base(_) => stack.Bottom?
       case Inside(outer, start, _) =>
         && stack.Opened? && stack.id == TrimmedId(start) && stack.id != "" && start.name == "ProgressStart"
         && Explains(outer, stack.outer)
  }

  ghost predicate ExplainsState(container: Xml, i: nat, st: State, f: Frames, used: set<string>) {
    && i <= |container.children| && WrittenFrames(f) == container.children[..i]
    && Explains(f, st.stack)
    && Fresh(FrameIds(f), used) && st.blockIds == used + SetOf(FrameIds(f))
  }

  function Add(f: Frames, d: Doc): Frames { f.(docs := f.docs + [d]) }

  lemma AddedDocs(docs: seq<Doc>, d: Doc)
    ensures (docs + [d])[..|docs|] == docs && (docs + [d])[|docs|] == d
    ensures WriteAll(docs + [d]) == WriteAll(docs) + Write(d) && AllBlockIds(docs + [d]) == AllBlockIds(docs) + BlockIds(d)
    ensures DocIdentities(docs + [d]) == DocIdentities(docs) + DocIdentity(d)
    ensures AllWellFormed(docs + [d]) <==> AllWellFormed(docs) && WellFormed(d)
  {
    assert (docs + [d])[..|docs + [d]| - 1] == docs;
  }

  lemma Joined<T>(a: seq<T>, b: seq<T>, c: seq<T>)
    ensures a + (b + c) == a + b + c
  {
  }

  lemma AddShape(f: Frames, d: Doc)
    ensures Add(f, d).docs[..|f.docs|] == f.docs
    ensures WrittenFrames(Add(f, d)) == WrittenFrames(f) + Write(d)
    ensures FrameIds(Add(f, d)) == FrameIds(f) + BlockIds(d)
    ensures DocIdentities(Add(f, d).docs) == DocIdentities(f.docs) + DocIdentity(d)
    ensures AllWellFormed(Add(f, d).docs) <==> AllWellFormed(f.docs) && WellFormed(d)
  {
    AddedDocs(f.docs, d);
    if f.Inside? {
      Joined(WrittenFrames(f.outer) + [f.start], WriteAll(f.docs), Write(d));
      Joined(FrameIds(f.outer) + [TrimmedId(f.start)], AllBlockIds(f.docs), BlockIds(d));
    }
  }

  lemma AddExplainsStack(f: Frames, stack: Stack, d: Doc, nodes: seq<Nav>)
    requires Explains(f, stack) && WellFormed(d) && NavigationIdentity(nodes) == DocIdentity(d)
    ensures Explains(Add(f, d), PushAll(stack, nodes))
  {
    AddShape(f, d);
    IdentityConcat(stack.nodes, nodes);
  }

  lemma AddIds(f: Frames, d: Doc, used: set<string>, blockIds: set<string>)
    requires Fresh(FrameIds(f), used) && blockIds == used + SetOf(FrameIds(f)) && Fresh(BlockIds(d), blockIds)
    ensures Fresh(FrameIds(Add(f, d)), used) && blockIds + SetOf(BlockIds(d)) == used + SetOf(FrameIds(Add(f, d)))
  {
    AddShape(f, d);
    FreshConcat(FrameIds(f), BlockIds(d), used);
  }

  lemma AddWritten(container: Xml, i: nat, f: Frames, d: Doc)
    requires i < |container.children| && WrittenFrames(f) == container.children[..i] && Write(d) == [container.children[i]]
    ensures WrittenFrames(Add(f, d)) == container.children[..i + 1]
  {
    AddShape(f, d);
    assert container.children[..i + 1] == container.children[..i] + [container.children[i]];
  }

  /** One more complete element. */
  lemma AddExplains(container: Xml, i: nat, st: State, f: Frames, used: set<string>, d: Doc, nodes: seq<Nav>, st': State)
    requires ExplainsState(container, i, st, f, used) && i < |container.children|
    requires WellFormed(d) && Write(d) == [container.children[i]] && Fresh(BlockIds(d), st.blockIds)
    requires st' == State(PushAll(st.stack, nodes), st.blockIds + SetOf(BlockIds(d)))
    requires NavigationIdentity(nodes) == DocIdentity(d)
    ensures ExplainsState(container, i + 1, st', Add(f, d), used)
  {
    AddWritten(container, i, f, d);
    AddExplainsStack(f, st.stack, d, nodes);
    AddIds(f, d, used, st.blockIds);
  }

  lemma OneNode(stack: Stack, node: Nav)
    ensures Push(stack, node) == PushAll(stack, [node])
    ensures NavigationIdentity([node]) == [IdentityOf(node)]
  {
    assert [node][..0] == [];
  }

  lemma ExplainRestrictions(container: Xml, path: string, i: nat, st: State, f: Frames, used: set<string>)
    requires i < |container.children| && ExplainsState(container, i, st, f, used)
    requires container.children[i].name == "Restrictions" && Step(container, path, i, st).Ok?
    ensures ExplainsState(container, i + 1, Step(container, path, i, st).value, Add(f, Ignored(container.children[i])), used)
  {
    assert st.stack == PushAll(st.stack, []);
    AddExplains(container, i, st, f, used, Ignored(container.children[i]), [], Step(container, path, i, st).value);
  }

  lemma ExplainUnit(container: Xml, path: string, i: nat, st: State, f: Frames, used: set<string>)
    requires i < |container.children| && ExplainsState(container, i, st, f, used)
    requires container.children[i].name == "Unit" && Step(container, path, i, st).Ok?
    ensures ExplainsState(container, i + 1, Step(container, path, i, st).value, Add(f, Leaf(container.children[i])), used)
  {
    var node := container.children[i];
    var id := TrimmedId(node);
    var unit := Unit(id, LabelOr(node, id), Get(node.attributes, "alias"), ChildPath(path, container.children, i));
    OneNode(st.stack, unit);
    AddExplains(container, i, st, f, used, Leaf(node), [unit], Step(container, path, i, st).value);
  }

  /** A block in one element, whose contents are explained. */
  lemma ExplainTestlet(container: Xml, path: string, i: nat, st: State, f: Frames, used: set<string>, docs: seq<Doc>) returns (d: Doc)
    requires i < |container.children| && ExplainsState(container, i, st, f, used)
    requires container.children[i].name == "Testlet" && Step(container, path, i, st).Ok?
    requires var node, id := container.children[i], TrimmedId(container.children[i]);
      && Encodes(docs, node, st.blockIds + {id})
      && NavigationIdentity(Contents(node, ChildPath(path, container.children, i), st.blockIds + {id}).value.0) == DocIdentities(docs)
      && Contents(node, ChildPath(path, container.children, i), st.blockIds + {id}).value.1 == st.blockIds + {id} + SetOf(AllBlockIds(docs))
    ensures ExplainsState(container, i + 1, Step(container, path, i, st).value, Add(f, d), used)
  {
    var node := container.children[i];
    var id, nodePath := TrimmedId(node), ChildPath(path, container.children, i);
    d := Nested(node.attributes, node.text, docs);
    assert NestedElement(d) == node;
    FreshConcat([id], AllBlockIds(docs), st.blockIds);
    assert SetOf([id]) == {id};
    var block := Block(id, LabelOr(node, id), nodePath, Contents(node, nodePath, st.blockIds + {id}).value.0);
    OneNode(st.stack, block);
    AddExplains(container, i, st, f, used, d, [block], Step(container, path, i, st).value);
  }

  lemma {:induction false} ExplainStep(container: Xml, path: string, i: nat, st: State, f: Frames, used: set<string>) returns (f': Frames)
    requires i < |container.children| && ExplainsState(container, i, st, f, used)
    requires Step(container, path, i, st).Ok?
    ensures ExplainsState(container, i + 1, Step(container, path, i, st).value, f', used)
    decreases container, |container.children| - i, 0
  {
    var node := container.children[i];
    if node.name == "Restrictions" {
      f' := Add(f, Ignored(node));
      ExplainRestrictions(container, path, i, st, f, used);
    } else if node.name == "ProgressStart" {
      f' := ExplainStart(container, path, i, st, f, used);
    } else if node.name == "ProgressEnd" {
      f' := ExplainEnd(container, path, i, st, f, used);
    } else if node.name == "Testlet" {
      var docs := ExplainContents(node, ChildPath(path, container.children, i), st.blockIds + {TrimmedId(node)});
      var d := ExplainTestlet(container, path, i, st, f, used, docs);
      f' := Add(f, d);
    } else {
      f' := Add(f, Leaf(node));
      ExplainUnit(container, path, i, st, f, used);
    }
  }

  lemma ExplainStart(container: Xml, path: string, i: nat, st: State, f: Frames, used: set<string>) returns (f': Frames)
    requires i < |container.children| && ExplainsState(container, i, st, f, used)
    requires container.children[i].name == "ProgressStart" && Step(container, path, i, st).Ok?
    ensures ExplainsState(container, i + 1, Step(container, path, i, st).value, f', used)
  {
    var node := container.children[i];
    f' := Inside(f, node, []);
    FreshConcat(FrameIds(f), [TrimmedId(node)], used);
    assert FrameIds(f') == FrameIds(f) + [TrimmedId(node)];
    assert WrittenFrames(f') == WrittenFrames(f) + [node];
    assert container.children[..i + 1] == container.children[..i] + [node];
    assert SetOf([TrimmedId(node)]) == {TrimmedId(node)};
  }

  lemma Regrouped<T>(a: seq<T>, b: seq<T>, c: seq<T>, d: seq<T>)
    ensures a + (b + c) == a + b + c
    ensures a + (b + c + d) == a + b + c + d
  {
  }

  /** The ids of a block once its marker is closed. */
  lemma ClosedIds(f: Frames, node: Xml)
    requires f.Inside?
    ensures FrameIds(Add(f.outer, Flat(f.start, f.docs, node))) == FrameIds(f)
  {
    var d := Flat(f.start, f.docs, node);
    AddShape(f.outer, d);
    assert BlockIds(d) == [TrimmedId(f.start)] + AllBlockIds(f.docs);
    Regrouped(FrameIds(f.outer), [TrimmedId(f.start)], AllBlockIds(f.docs), []);
  }

  /** What was written of it. */
  lemma ClosedWritten(f: Frames, node: Xml)
    requires f.Inside?
    ensures WrittenFrames(Add(f.outer, Flat(f.start, f.docs, node))) == WrittenFrames(f) + [node]
  {
    var d := Flat(f.start, f.docs, node);
    AddShape(f.outer, d);
    assert Write(d) == [f.start] + WriteAll(f.docs) + [node];
    Regrouped(WrittenFrames(f.outer), [f.start], WriteAll(f.docs), [node]);
  }

  lemma ClosedExplains(f: Frames, stack: Stack, node: Xml)
    requires Explains(f, stack) && stack.Opened? && stack.nodes != [] && Closes(node, f.start)
    ensures Explains(Add(f.outer, Flat(f.start, f.docs, node)), PushAll(stack.outer, [Block(stack.id, stack.labelText, stack.path, stack.nodes)]))
  {
    var d, block := Flat(f.start, f.docs, node), Block(stack.id, stack.labelText, stack.path, stack.nodes);
    assert NavigationIdentity(stack.nodes) != [];
    OneNode(stack.outer, block);
    AddExplainsStack(f.outer, stack.outer, d, [block]);
  }

  lemma ExplainEnd(container: Xml, path: string, i: nat, st: State, f: Frames, used: set<string>) returns (f': Frames)
    requires i < |container.children| && ExplainsState(container, i, st, f, used)
    requires container.children[i].name == "ProgressEnd" && Step(container, path, i, st).Ok?
    ensures ExplainsState(container, i + 1, Step(container, path, i, st).value, f', used)
  {
    var node := container.children[i];
    f' := Add(f.outer, Flat(f.start, f.docs, node));
    ClosedIds(f, node);
    ClosedWritten(f, node);
    ClosedExplains(f, st.stack, node);
    assert container.children[..i + 1] == container.children[..i] + [node];
  }

  lemma {:induction false} ExplainRest(container: Xml, path: string, i: nat, st: State, f: Frames, used: set<string>) returns (docs: seq<Doc>)
    requires ExplainsState(container, i, st, f, used)
    requires Navigate(container, path, i, st).Ok? && Navigate(container, path, i, st).value.stack.Bottom?
    ensures Encodes(docs, container, used)
    ensures NavigationIdentity(Navigate(container, path, i, st).value.stack.nodes) == DocIdentities(docs)
    decreases container, |container.children| - i, 1
  {
    if i == |container.children| {
      assert container.children[..i] == container.children;
      docs := f.docs;
    } else {
      var f' := ExplainStep(container, path, i, st, f, used);
      docs := ExplainRest(container, path, i + 1, Step(container, path, i, st).value, f', used);
    }
  }

  lemma {:induction false} ExplainContents(container: Xml, path: string, used: set<string>) returns (docs: seq<Doc>)
    requires Contents(container, path, used).Ok?
    ensures Encodes(docs, container, used)
    ensures NavigationIdentity(Contents(container, path, used).value.0) == DocIdentities(docs)
    ensures Contents(container, path, used).value.1 == used + SetOf(AllBlockIds(docs))
    decreases container, |container.children| + 1
  {
    assert used + SetOf([]) == used;
    assert container.children[..0] == [];
    docs := ExplainRest(container, path, 0, State(Bottom([]), used), Base([]), used);
    var _ := ContentsOfWritten(container, path, docs, used);
  }

  /** The container is a written forest of balanced blocks with unique ids. */
  ghost predicate Encodes(docs: seq<Doc>, container: Xml, used: set<string>) {
    AllWellFormed(docs) && Fresh(AllBlockIds(docs), used) && WriteAll(docs) == container.children
  }

  /** The parser accepts exactly the written forests, and every way to see a container as a
      written forest has the navigation identity that the parser found. */
  lemma AcceptsExactlyWrittenForests(container: Xml, path: string, used: set<string>)
    ensures Contents(container, path, used).Ok? <==> exists docs :: Encodes(docs, container, used)
    ensures forall docs :: Encodes(docs, container, used) ==>
              NavigationIdentity(Contents(container, path, used).value.0) == DocIdentities(docs)
  {
    forall docs | Encodes(docs, container, used)
      ensures Contents(container, path, used).Ok?
      ensures NavigationIdentity(Contents(container, path, used).value.0) == DocIdentities(docs)
    {
      var _ := ContentsOfWritten(container, path, docs, used);
    }
    if Contents(container, path, used).Ok? {
      var docs := ExplainContents(container, path, used);
    }
  }

  // --------------------------------------------------------------------------- document order

  /** The ids of the Unit elements of nested Testlets in document order. */
  function UnitsInDocument(elements: seq<Xml>): seq<string> {
    if elements == [] then []
    else UnitsInDocument(elements[..|elements| - 1]) + UnitsInElement(elements[|elements| - 1])
  }

  function UnitsInElement(element: Xml): seq<string> {
    if element.name == "Unit" then [TrimmedId(element)]
    else if element.name == "Testlet" then UnitsInDocument(element.children) else []
  }

  function UnitsOf(identities: seq<Identity>): seq<string> {
    if identities == [] then []
    else
      var last := identities[|identities| - 1];
      UnitsOf(identities[..|identities| - 1]) + if last.UnitIdentity? then [last.id] else UnitsOf(last.children)
  }

  lemma {:induction false} UnitsInConcat(a: seq<Xml>, b: seq<Xml>)
    ensures UnitsInDocument(a + b) == UnitsInDocument(a) + UnitsInDocument(b)
  {
    if b == [] {
      assert a + b == a;
    } else {
      var n := |b| - 1;
      assert (a + b)[..|a + b| - 1] == a + b[..n] && (a + b)[|a + b| - 1] == b[n];
      UnitsInConcat(a, b[..n]);
      assert UnitsInDocument(a + b) == UnitsInDocument(a + b[..n]) + UnitsInElement(b[n]);
    }
  }

  lemma {:induction false} UnitsOfConcat(a: seq<Identity>, b: seq<Identity>)
    ensures UnitsOf(a + b) == UnitsOf(a) + UnitsOf(b)
  {
    if b == [] {
      assert a + b == a;
    } else {
      assert (a + b)[..|a + b| - 1] == a + b[..|b| - 1];
      UnitsOfConcat(a, b[..|b| - 1]);
    }
  }

  lemma {:induction false} WrittenUnits(docs: seq<Doc>)
    requires AllWellFormed(docs)
    ensures UnitsInDocument(WriteAll(docs)) == UnitsOf(DocIdentities(docs))
    decreases docs, 0
  {
    if docs != [] {
      var n := |docs| - 1;
      WrittenUnits(docs[..n]);
      WrittenUnitsOfDoc(docs[n]);
      UnitsInConcat(WriteAll(docs[..n]), Write(docs[n]));
      UnitsOfConcat(DocIdentities(docs[..n]), DocIdentity(docs[n]));
    }
  }

  lemma {:induction false} WrittenUnitsOfDoc(d: Doc)
    requires WellFormed(d)
    ensures UnitsInDocument(Write(d)) == UnitsOf(DocIdentity(d))
    decreases d, 1
  {
    match d
    case Ignored(element) => assert [element][..0] == [];
    case Leaf(element) =>
      assert [element][..0] == [];
      assert DocIdentity(d)[..0] == [];
    case Nested(_, _, docs) =>
      assert Write(d)[..0] == [];
      assert DocIdentity(d)[..0] == [];
      WrittenUnits(docs);
    case Flat(start, docs, end) =>
      assert DocIdentity(d)[..0] == [];
      WrittenUnits(docs);
      assert [start][..0] == [] && [end][..0] == [];
      UnitsInConcat([start] + WriteAll(docs), [end]);
      UnitsInConcat([start], WriteAll(docs));
  }

  /** Parsing keeps the units in document order, whatever blocks enclose them. */
  lemma KeepsUnitOrder(container: Xml, path: string, used: set<string>)
    requires Contents(container, path, used).Ok?
    ensures UnitsOf(NavigationIdentity(Contents(container, path, used).value.0)) == UnitsInDocument(container.children)
  {
    var docs := ExplainContents(container, path, used);
    WrittenUnits(docs);
  }

  // ------------------------------------------------------------------------- distinct paths

  /** The paths of the units of a navigation tree in pre-order. */
  function UnitPaths(nodes: seq<Nav>): seq<string> {
    if nodes == [] then []
    else UnitPaths(nodes[..|nodes| - 1]) + UnitPathsOf(nodes[|nodes| - 1])
  }

  function UnitPathsOf(node: Nav): seq<string> {
    match node
    case Block(_, _, _, children) => UnitPaths(children)
    case Unit(_, _, _, path) => [path]
  }

  ghost function StackPaths(stack: Stack): seq<string> {
    match stack
    case Bottom(nodes) => UnitPaths(nodes)
    case Opened(outer, _, _, _, nodes) => StackPaths(outer) + UnitPaths(nodes)
  }

  /** The path of the j-th child or of something inside of it. */
  ghost predicate Under(p: string, path: string, siblings: seq<Xml>, j: nat) {
    && j < |siblings| && (siblings[j].name == "Unit" || siblings[j].name == "Testlet")
    && (p == ChildPath(path, siblings, j) || ChildPath(path, siblings, j) + "/" <= p)
  }

  lemma {:induction false} CountGrows(siblings: seq<Xml>, name: string, i: nat, j: nat)
    requires i < j <= |siblings| && siblings[i].name == name
    ensures CountNamed(siblings, name, i) < CountNamed(siblings, name, j)
  {
    if i + 1 < j { CountGrows(siblings, name, i, j - 1); }
  }

  /** A number followed by a bracket can be read off again. */
  lemma {:induction false} BracketedNumber(m: nat, n: nat, a: string, b: string)
    requires Decimal(m) + "]" + a == Decimal(n) + "]" + b
    ensures m == n
  {
    DecimalShape(m);
    DecimalShape(n);
    var s := Decimal(m) + "]" + a;
    assert s[|Decimal(m)|] == ']' && s[|Decimal(n)|] == ']';
    assert forall i :: 0 <= i < |Decimal(m)| ==> s[i] == Decimal(m)[i];
    assert forall i :: 0 <= i < |Decimal(n)| ==> s[i] == Decimal(n)[i];
    assert |Decimal(m)| == |Decimal(n)|;
    assert Decimal(m) == s[..|Decimal(m)|] == Decimal(n);
    DecimalInjective(m, n);
  }

  /** A path taken apart behind the name of the child. */
  lemma BehindName(front: string, number: string, rest: string)
    ensures front + "[" + number + "]" + rest == front + ("[" + (number + "]" + rest))
    ensures ("[" + (number + "]" + rest))[1..] == number + "]" + rest
  {
  }

  lemma SameChildName(path: string, nameJ: string, nameK: string, tailJ: string, tailK: string)
    requires (nameJ == "Unit" || nameJ == "Testlet") && (nameK == "Unit" || nameK == "Testlet")
    requires path + "/" + nameJ + tailJ == path + "/" + nameK + tailK
    ensures nameJ == nameK && tailJ == tailK
  {
    var p := path + "/" + nameJ + tailJ;
    assert p[|path| + 1] == nameJ[0] == nameK[0];
    assert p[|path| + 1 + |nameJ|..] == tailJ && p[|path| + 1 + |nameK|..] == tailK;
  }

  /** The paths of children that begin alike belong to the same child. */
  lemma SameChildPath(path: string, nameJ: string, nameK: string, m: nat, n: nat, restJ: string, restK: string, p: string)
    requires (nameJ == "Unit" || nameJ == "Testlet") && (nameK == "Unit" || nameK == "Testlet")
    requires p == path + "/" + nameJ + "[" + Decimal(m) + "]" + restJ
    requires p == path + "/" + nameK + "[" + Decimal(n) + "]" + restK
    ensures nameJ == nameK && m == n
  {
    var tailJ, tailK := Decimal(m) + "]" + restJ, Decimal(n) + "]" + restK;
    BehindName(path + "/" + nameJ, Decimal(m), restJ);
    BehindName(path + "/" + nameK, Decimal(n), restK);
    SameChildName(path, nameJ, nameK, "[" + tailJ, "[" + tailK);
    BracketedNumber(m, n, restJ, restK);
  }

  /** What follows the path of a child. */
  lemma UnderRest(p: string, path: string, siblings: seq<Xml>, j: nat) returns (rest: string)
    requires Under(p, path, siblings, j)
    ensures p == ChildPath(path, siblings, j) + rest
  {
    rest := p[|ChildPath(path, siblings, j)|..];
  }

  lemma UnderOne(p: string, path: string, siblings: seq<Xml>, j: nat, k: nat)
    requires Under(p, path, siblings, j) && Under(p, path, siblings, k)
    ensures j == k
  {
    var nameJ, nameK := siblings[j].name, siblings[k].name;
    var restJ := UnderRest(p, path, siblings, j);
    var restK := UnderRest(p, path, siblings, k);
    SameChildPath(path, nameJ, nameK, CountNamed(siblings, nameJ, j), CountNamed(siblings, nameK, k), restJ, restK, p);
    if j < k { CountGrows(siblings, nameJ, j, k); }
    if k < j { CountGrows(siblings, nameJ, k, j); }
  }

  /** All unit paths read so far are distinct and lie under the children read so far. */
  ghost predicate PathsUpTo(paths: seq<string>, path: string, siblings: seq<Xml>, i: nat) {
    && Distinct(paths)
    && (forall p :: p in paths ==> exists j :: 0 <= j < i && Under(p, path, siblings, j))
  }

  lemma PathsExtend(paths: seq<string>, more: seq<string>, path: string, siblings: seq<Xml>, i: nat)
    requires PathsUpTo(paths, path, siblings, i) && i < |siblings|
    requires Distinct(more) && forall p :: p in more ==> Under(p, path, siblings, i)
    ensures PathsUpTo(paths + more, path, siblings, i + 1)
  {
    forall a, b | 0 <= a < b < |paths + more| ensures (paths + more)[a] != (paths + more)[b] {
      if a < |paths| <= b && paths[a] == more[b - |paths|] {
        assert paths[a] in paths && more[b - |paths|] in more;
        var j :| 0 <= j < i && Under(paths[a], path, siblings, j);
        UnderOne(paths[a], path, siblings, j, i);
      }
    }
    forall p | p in paths + more ensures exists j :: 0 <= j < i + 1 && Under(p, path, siblings, j) {
      if p in paths {
        var j :| 0 <= j < i && Under(p, path, siblings, j);
      } else {
        assert Under(p, path, siblings, i);
      }
    }
  }

  lemma PushPaths(stack: Stack, node: Nav)
    ensures StackPaths(Push(stack, node)) == StackPaths(stack) + UnitPathsOf(node)
  {
    assert (stack.nodes + [node])[..|stack.nodes|] == stack.nodes;
    if stack.Opened? {
      assert StackPaths(stack.outer) + (UnitPaths(stack.nodes) + UnitPathsOf(node)) == StackPaths(stack) + UnitPathsOf(node);
    }
  }

  /** A node for the next child, whose units lie under that child. */
  lemma PushedPaths(stack: Stack, node: Nav, path: string, siblings: seq<Xml>, i: nat)
    requires PathsUpTo(StackPaths(stack), path, siblings, i) && i < |siblings|
    requires Distinct(UnitPathsOf(node)) && forall p :: p in UnitPathsOf(node) ==> Under(p, path, siblings, i)
    ensures PathsUpTo(StackPaths(Push(stack, node)), path, siblings, i + 1)
  {
    PushPaths(stack, node);
    PathsExtend(StackPaths(stack), UnitPathsOf(node), path, siblings, i);
  }

  /** A marker leaves the units as they are. */
  lemma MarkerPaths(container: Xml, path: string, i: nat, st: State)
    requires i < |container.children| && Step(container, path, i, st).Ok?
    requires container.children[i].name != "Testlet" && container.children[i].name != "Unit"
    ensures StackPaths(Step(container, path, i, st).value.stack) == StackPaths(st.stack)
  {
    if container.children[i].name == "ProgressEnd" {
      PushPaths(st.stack.outer, Block(st.stack.id, st.stack.labelText, st.stack.path, st.stack.nodes));
    }
  }

  lemma {:induction false} StepPaths(container: Xml, path: string, i: nat, st: State)
    requires i < |container.children| && Step(container, path, i, st).Ok?
    requires PathsUpTo(StackPaths(st.stack), path, container.children, i)
    ensures PathsUpTo(StackPaths(Step(container, path, i, st).value.stack), path, container.children, i + 1)
    decreases container, |container.children| - i, 0
  {
    var node := container.children[i];
    var nodePath, id := ChildPath(path, container.children, i), TrimmedId(node);
    if node.name == "Testlet" {
      ContentsPaths(node, nodePath, st.blockIds + {id});
      var nodes := Contents(node, nodePath, st.blockIds + {id}).value.0;
      forall p | p in UnitPaths(nodes) ensures Under(p, path, container.children, i) {
        assert nodePath + "/" <= p;
      }
      PushedPaths(st.stack, Block(id, LabelOr(node, id), nodePath, nodes), path, container.children, i);
    } else if node.name == "Unit" {
      PushedPaths(st.stack, Unit(id, LabelOr(node, id), Get(node.attributes, "alias"), nodePath), path, container.children, i);
    } else {
      MarkerPaths(container, path, i, st);
    }
  }

  lemma {:induction false} NavigatePaths(container: Xml, path: string, i: nat, st: State)
    requires i <= |container.children| && Navigate(container, path, i, st).Ok?
    requires PathsUpTo(StackPaths(st.stack), path, container.children, i)
    ensures PathsUpTo(StackPaths(Navigate(container, path, i, st).value.stack), path, container.children, |container.children|)
    decreases container, |container.children| - i, 1
  {
    if i < |container.children| {
      StepPaths(container, path, i, st);
      NavigatePaths(container, path, i + 1, Step(container, path, i, st).value);
    }
  }

  /** No two units of a container have the same path, and all paths lie under the container's. */
  lemma {:induction false} ContentsPaths(container: Xml, path: string, used: set<string>)
    requires Contents(container, path, used).Ok?
    ensures Distinct(UnitPaths(Contents(container, path, used).value.0))
    ensures forall p :: p in UnitPaths(Contents(container, path, used).value.0) ==> path + "/" <= p
    decreases container, |container.children| + 1
  {
    NavigatePaths(container, path, 0, State(Bottom([]), used));
    var paths := UnitPaths(Contents(container, path, used).value.0);
    forall p | p in paths ensures path + "/" <= p {
      var j :| 0 <= j < |container.children| && Under(p, path, container.children, j);
      assert path + "/" <= ChildPath(path, container.children, j);
    }
  }

  // ----------------------------------------------------------------------- labels

  /** The label that an element gives to what it stands for. */
  ghost predicate IsLabelled(e: Xml, id: string, labelText: string) {
    if "label" in e.attributes && e.attributes["label"] != "" then labelText == e.attributes["label"] else labelText == id
  }

  ghost predicate StandsFor(e: Xml, node: Nav) {
    && node.id == TrimmedId(e) && IsLabelled(e, node.id, node.labelText)
    && match node {
         case Block(_, _, _, _) => e.name == "Testlet" || e.name == "ProgressStart"
         case Unit(_, _, alias, _) => e.name == "Unit" && alias == Get(e.attributes, "alias")
       }
  }

  ghost predicate Within(e: Xml, container: Xml) {
    exists i :: 0 <= i < |container.children| && (e == container.children[i] || Within(e, container.children[i]))
  }

  ghost predicate HasElement(container: Xml, node: Nav) { exists e :: Within(e, container) && StandsFor(e, node) }

  /** The node and all nodes below it stand for elements of the container. */
  ghost predicate ComesFrom(node: Nav, container: Xml)
    decreases node
  {
    HasElement(container, node) && (node.Block? ==> forall i :: 0 <= i < |node.children| ==> ComesFrom(node.children[i], container))
  }

  ghost predicate AllComeFrom(nodes: seq<Nav>, container: Xml) { forall i :: 0 <= i < |nodes| ==> ComesFrom(nodes[i], container) }

  ghost predicate StackComesFrom(stack: Stack, container: Xml)
    decreases stack
  {
    && AllComeFrom(stack.nodes, container)
    && (stack.Opened? ==> HasElement(container, Block(stack.id, stack.labelText, stack.path, [])) && StackComesFrom(stack.outer, container))
  }

  lemma ElementOfChild(container: Xml, i: nat, node: Nav)
    requires i < |container.children| && StandsFor(container.children[i], node)
    ensures HasElement(container, node)
  {
    assert Within(container.children[i], container);
  }

  lemma {:induction false} BelowChild(container: Xml, i: nat, node: Nav)
    requires i < |container.children| && ComesFrom(node, container.children[i])
    ensures ComesFrom(node, container)
    decreases node
  {
    var e :| Within(e, container.children[i]) && StandsFor(e, node);
    assert Within(e, container);
    if node.Block? {
      forall j | 0 <= j < |node.children| ensures ComesFrom(node.children[j], container) { BelowChild(container, i, node.children[j]); }
    }
  }

  lemma PushedComesFrom(stack: Stack, node: Nav, container: Xml)
    requires StackComesFrom(stack, container) && ComesFrom(node, container)
    ensures StackComesFrom(Push(stack, node), container)
  {
  }

  lemma {:induction false} StepComesFrom(container: Xml, path: string, i: nat, st: State)
    requires i < |container.children| && Step(container, path, i, st).Ok? && StackComesFrom(st.stack, container)
    ensures StackComesFrom(Step(container, path, i, st).value.stack, container)
    decreases container, |container.children| - i, 0
  {
    var node, nodePath := container.children[i], ChildPath(path, container.children, i);
    var id := TrimmedId(node);
    if node.name == "ProgressStart" {
      ElementOfChild(container, i, Block(id, LabelOr(node, id), nodePath, []));
    } else if node.name == "ProgressEnd" {
      ClosedComesFrom(st.stack, container);
    } else if node.name == "Testlet" {
      var nodes := Contents(node, nodePath, st.blockIds + {id}).value.0;
      ContentsComeFrom(node, nodePath, st.blockIds + {id});
      ElementOfChild(container, i, Block(id, LabelOr(node, id), nodePath, nodes));
      forall j | 0 <= j < |nodes| ensures ComesFrom(nodes[j], container) { BelowChild(container, i, nodes[j]); }
      PushedComesFrom(st.stack, Block(id, LabelOr(node, id), nodePath, nodes), container);
    } else if node.name == "Unit" {
      ElementOfChild(container, i, Unit(id, LabelOr(node, id), Get(node.attributes, "alias"), nodePath));
    }
  }

  lemma ClosedComesFrom(stack: Stack, container: Xml)
    requires stack.Opened? && StackComesFrom(stack, container)
    ensures StackComesFrom(Push(stack.outer, Block(stack.id, stack.labelText, stack.path, stack.nodes)), container)
  {
    var block := Block(stack.id, stack.labelText, stack.path, stack.nodes);
    var e :| Within(e, container) && StandsFor(e, Block(stack.id, stack.labelText, stack.path, []));
    assert StandsFor(e, block);
    PushedComesFrom(stack.outer, block, container);
  }

  lemma {:induction false} NavigateComesFrom(container: Xml, path: string, i: nat, st: State)
    requires i <= |container.children| && Navigate(container, path, i, st).Ok? && StackComesFrom(st.stack, container)
    ensures StackComesFrom(Navigate(container, path, i, st).value.stack, container)
    decreases container, |container.children| - i, 1
  {
    if i < |container.children| {
      StepComesFrom(container, path, i, st);
      NavigateComesFrom(container, path, i + 1, Step(container, path, i, st).value);
    }
  }

  /** Every block and every unit of the navigation has the id, the label and the alias of an element. */
  lemma {:induction false} ContentsComeFrom(container: Xml, path: string, used: set<string>)
    requires Contents(container, path, used).Ok?
    ensures AllComeFrom(Contents(container, path, used).value.0, container)
    decreases container, |container.children| + 1, 0
  {
    NavigateComesFrom(container, path, 0, State(Bottom([]), used));
  }

  // ---------------------------------------------------------------------- the parser object

  class BookletReader {
    var blockIds: set<string>

    constructor ()
      ensures blockIds == {}
    {
      blockIds := {};
    }

    /** `block`: a navigation node for a Testlet or ProgressStart element. */
    method OpenBlock(node: Xml, nodePath: string) returns (r: Result<(string, string), StructureError>)
      modifies this
      ensures r.Ok? <==> TrimmedId(node) != "" && TrimmedId(node) !in old(blockIds)
      ensures r.Ok? ==> r.value == (TrimmedId(node), LabelOr(node, TrimmedId(node))) && blockIds == old(blockIds) + {TrimmedId(node)}
      ensures r.Err? ==> r.error == StructureError(nodePath, "Block-ID fehlt oder ist doppelt.") && blockIds == old(blockIds)
    {
      var blockId := TrimmedId(node);
      if blockId == "" || blockId in blockIds {
        return Err(StructureError(nodePath, "Block-ID fehlt oder ist doppelt."));
      }
      blockIds := blockIds + {blockId};
      return Ok((blockId, LabelOr(node, blockId)));
    }

    /** `navigation`: the loop over the children of a container with its stack of markers. */
    method Navigation(container: Xml, path: string) returns (r: Result<seq<Nav>, StructureError>)
      modifies this
      ensures Contents(container, path, old(blockIds)).Ok? ==>
        r == Ok(Contents(container, path, old(blockIds)).value.0) && blockIds == Contents(container, path, old(blockIds)).value.1
      ensures Contents(container, path, old(blockIds)).Err? ==> r == Err(Contents(container, path, old(blockIds)).error)
      decreases container
    {
      var stack := Bottom([]);
      for i := 0 to |container.children|
        invariant Navigate(container, path, 0, State(Bottom([]), old(blockIds))) == Navigate(container, path, i, State(stack, blockIds))
      {
        var node := container.children[i];
        var nodePath := ChildPath(path, container.children, i);
        ghost var st := State(stack, blockIds);
        ghost var step := Step(container, path, i, st);
        if node.name == "Restrictions" {
        } else if node.name == "ProgressStart" {
          var entry := OpenBlock(node, nodePath);
          if entry.Err? { return Err(entry.error); }
          stack := Opened(stack, entry.value.0, entry.value.1, nodePath, []);
        } else if node.name == "ProgressEnd" {
          if !stack.Opened? || ("id" in node.attributes && node.attributes["id"] != "" && node.attributes["id"] != stack.id) {
            return Err(StructureError(nodePath, "Fortschrittsmarker ist nicht passend geöffnet."));
          }
          if stack.nodes == [] {
            return Err(StructureError(nodePath, "Leerer Fortschrittsblock."));
          }
          stack := Push(stack.outer, Block(stack.id, stack.labelText, stack.path, stack.nodes));
        } else if node.name == "Testlet" {
          var entry := OpenBlock(node, nodePath);
          if entry.Err? { return Err(entry.error); }
          var inner := Navigation(node, nodePath);
          if inner.Err? { return Err(inner.error); }
          stack := Push(stack, Block(entry.value.0, entry.value.1, nodePath, inner.value));
        } else if node.name == "Unit" {
          var unitId := TrimmedId(node);
          if unitId == "" { return Err(StructureError(nodePath, "Unit-ID fehlt.")); }
          stack := Push(stack, Unit(unitId, LabelOr(node, unitId), Get(node.attributes, "alias"), nodePath));
        } else {
          return Err(StructureError(nodePath, "Unbekanntes Navigationselement: " + node.name));
        }
        assert step == Ok(State(stack, blockIds));
      }
      if stack.Opened? {
        return Err(StructureError(OldestOpen(stack), "Fortschrittsblock wurde nicht geschlossen."));
      }
      return Ok(stack.nodes);
    }
  }

  // -------------------------------------------------------------------------- whole booklets

  datatype Booklet = Booklet(id: string, labelText: string, children: seq<Nav>)

  /** The position of the first child with this name, or the number of children. */
  function FirstNamed(children: seq<Xml>, name: string, from: nat := 0): (i: nat)
    requires from <= |children|
    ensures from <= i <= |children|
    ensures i < |children| ==> children[i].name == name
    ensures forall j :: from <= j < i ==> children[j].name != name
    decreases |children| - from
  {
    if from == |children| || children[from].name == name then from else FirstNamed(children, name, from + 1)
  }

  function TextOf(children: seq<Xml>, name: string): string {
    var i := FirstNamed(children, name);
    if i < |children| then Trim(children[i].text) else ""
  }

  /** `parseBookletXml` after the XML has been read. */
  function ParseBooklet(root: Xml, source: string): Result<Booklet, StructureError> {
    if root.name != "Booklet" then Err(StructureError(source, "Wurzelelement Booklet fehlt."))
    else
      var m := FirstNamed(root.children, "Metadata");
      var metadata := if m < |root.children| then root.children[m].children else [];
      var id := TextOf(metadata, "Id");
      var labelText := TextOf(metadata, "Label");
      if id == "" then Err(StructureError(source + "/Booklet/Metadata/Id", "Booklet-ID fehlt."))
      else
        var u := FirstNamed(root.children, "Units");
        if u == |root.children| then Err(StructureError(source + "/Booklet/Units", "Booklet-Aufgabenfolge fehlt."))
        else
          match Contents(root.children[u], ChildPath(source + "/Booklet[0]", root.children, u), {})
          case Err(e) => Err(e)
          case Ok((nodes, _)) => Ok(Booklet(id, if labelText == "" then id else labelText, nodes))
  }

  /** Child `i` is the first one with this name. */
  ghost predicate IsFirst(children: seq<Xml>, name: string, i: int) {
    0 <= i < |children| && children[i].name == name && forall j :: 0 <= j < i ==> children[j].name != name
  }

  /** The first child of the first Metadata element with this name holds the text, but for white space
      around it. */
  ghost predicate MetadataSays(root: Xml, name: string, text: string) {
    exists m, i :: IsFirst(root.children, "Metadata", m) && IsFirst(root.children[m].children, name, i)
                   && Trim(root.children[m].children[i].text) == text
  }

  /** The first Units element is child `u`. */
  ghost predicate IsBooklet(root: Xml, id: string, u: int) {
    root.name == "Booklet" && id != "" && MetadataSays(root, "Id", id) && IsFirst(root.children, "Units", u)
  }

  lemma TextIsFirst(children: seq<Xml>, name: string, i: int)
    requires IsFirst(children, name, i)
    ensures FirstNamed(children, name) == i && TextOf(children, name) == Trim(children[i].text)
  {
  }

  lemma NamedIsFirst(children: seq<Xml>, name: string)
    requires FirstNamed(children, name) < |children|
    ensures IsFirst(children, name, FirstNamed(children, name))
  {
  }

  function MetadataOf(root: Xml): seq<Xml> {
    var m := FirstNamed(root.children, "Metadata");
    if m < |root.children| then root.children[m].children else []
  }

  lemma MetadataIs(root: Xml, name: string, text: string)
    requires text != ""
    ensures MetadataSays(root, name, text) <==> TextOf(MetadataOf(root), name) == text
  {
    if MetadataSays(root, name, text) {
      var m, i :| IsFirst(root.children, "Metadata", m) && IsFirst(root.children[m].children, name, i)
                  && Trim(root.children[m].children[i].text) == text;
      TextIsFirst(root.children, "Metadata", m);
      TextIsFirst(root.children[m].children, name, i);
    }
    if TextOf(MetadataOf(root), name) == text {
      NamedIsFirst(root.children, "Metadata");
      NamedIsFirst(MetadataOf(root), name);
    }
  }

  lemma ParsedBooklet(root: Xml, source: string)
    ensures var u := FirstNamed(root.children, "Units");
      var path := if u < |root.children| then ChildPath(source + "/Booklet[0]", root.children, u) else "";
      && (ParseBooklet(root, source).Ok? <==>
            root.name == "Booklet" && TextOf(MetadataOf(root), "Id") != "" && u < |root.children| && Contents(root.children[u], path, {}).Ok?)
      && (ParseBooklet(root, source).Ok? ==>
            var booklet, text := ParseBooklet(root, source).value, TextOf(MetadataOf(root), "Label");
            && booklet.id == TextOf(MetadataOf(root), "Id") && booklet.labelText == (if text == "" then booklet.id else text)
            && booklet.children == Contents(root.children[u], path, {}).value.0)
  {
  }

  /** What a booklet says of its document: its id is the text of the Id, its label that of the Label or
      else its id; its units are those of the document in document order, on distinct paths; and its
      navigation is that of every way to see the Units element as a written forest, with labels and aliases
      of its elements. */
  ghost predicate Reports(root: Xml, u: int, booklet: Booklet)
    requires 0 <= u < |root.children|
  {
    && booklet.id != "" && MetadataSays(root, "Id", booklet.id)
    && booklet.labelText != ""
    && (MetadataSays(root, "Label", booklet.labelText)
        || (booklet.labelText == booklet.id && forall text :: text != "" ==> !MetadataSays(root, "Label", text)))
    && Distinct(UnitPaths(booklet.children))
    && UnitsOf(NavigationIdentity(booklet.children)) == UnitsInDocument(root.children[u].children)
    && (forall docs :: Encodes(docs, root.children[u], {}) ==> NavigationIdentity(booklet.children) == DocIdentities(docs))
    && AllComeFrom(booklet.children, root.children[u])
  }

  /** A booklet is accepted exactly if it is named, has an id and its first Units element holds a
      written forest; it then reports what the document says. */
  lemma AcceptedBooklets(root: Xml, source: string)
    ensures ParseBooklet(root, source).Ok? <==> exists id, u, docs :: IsBooklet(root, id, u) && Encodes(docs, root.children[u], {})
    ensures ParseBooklet(root, source).Ok? ==>
      exists u :: IsFirst(root.children, "Units", u) && Reports(root, u, ParseBooklet(root, source).value)
  {
    ParsedBooklet(root, source);
    var u, id := FirstNamed(root.children, "Units"), TextOf(MetadataOf(root), "Id");
    if u < |root.children| {
      var path := ChildPath(source + "/Booklet[0]", root.children, u);
      NamedIsFirst(root.children, "Units");
      AcceptsExactlyWrittenForests(root.children[u], path, {});
      if ParseBooklet(root, source).Ok? {
        MetadataIs(root, "Id", id);
        assert IsBooklet(root, id, u);
        LabelIsReported(root, ParseBooklet(root, source).value);
        ContentsPaths(root.children[u], path, {});
        KeepsUnitOrder(root.children[u], path, {});
        ContentsComeFrom(root.children[u], path, {});
        assert Reports(root, u, ParseBooklet(root, source).value);
      }
    }
    if a, v, docs :| IsBooklet(root, a, v) && Encodes(docs, root.children[v], {}) {
      MetadataIs(root, "Id", a);
      TextIsFirst(root.children, "Units", v);
    }
  }

  lemma LabelIsReported(root: Xml, booklet: Booklet)
    requires booklet.id != ""
    requires var text := TextOf(MetadataOf(root), "Label"); booklet.labelText == if text == "" then booklet.id else text
    ensures booklet.labelText != ""
    ensures MetadataSays(root, "Label", booklet.labelText)
         || (booklet.labelText == booklet.id && forall text :: text != "" ==> !MetadataSays(root, "Label", text))
  {
    MetadataIs(root, "Label", booklet.labelText);
    forall text | text != "" ensures MetadataSays(root, "Label", text) <==> TextOf(MetadataOf(root), "Label") == text {
      MetadataIs(root, "Label", text);
    }
  }
}
