/** backend/src/comments/comments.service.ts: the rows of the comment export and the parents they name. */
module ReviewExport {
  import opened Outcomes
  import opened ReviewPolicy
  import opened ReviewThreads
  import opened ReviewWorkspace
  import opened Sorting

  /** All comments, or those of a person: all that the person may see, or the person's own. */
  datatype Exporter = Everything | By(person: Person, visible: bool)

  datatype ExportRow = ExportRow(group: string, threadId: string, parent: string, category: string, text: string, author: string,
                                 createdAt: nat, updatedAt: nat, legacy: bool)

  function OrEmpty(a: Option<string>): string { if a.Some? then a.value else "" }

  /** Whose comments `getExportSnapshot` takes. */
  function Taken(s: State, who: Exporter): Comment -> bool {
    match who
    case Everything => (c: Comment) => !c.deleted
    case By(p, true) => Seen(s.config.mode, ActorFor(s.config, p))
    case By(p, false) =>
      (c: Comment) =>
        !c.deleted
        && (if p.credentialId.Some? then c.credentialId == p.credentialId else c.userId == p.userId)
        && (s.config.mode == Grouped ==> CanView(s.config.mode, ActorFor(s.config, p), c))
  }

  /** The comments that are not in the export but whose ids it may name. */
  predicate MayName(s: State, who: Exporter, parent: Comment) {
    match who
    case Everything => true
    case By(p, _) => CanView(s.config.mode, ActorFor(s.config, p), parent) || (parent.deleted && s.config.mode != Grouped)
  }

  function NamedParents(s: State, who: Exporter, exported: seq<Comment>): set<string> {
    Ids(exported) + set id | id in Parents(exported) && id in s.comments && MayName(s, who, s.comments[id])
  }

  function RowOf(nameOf: Comment -> string, visibleIds: set<string>, c: Comment): ExportRow {
    var named := c.parent.Some? && c.parent.value in visibleIds;
    ExportRow(OrEmpty(c.group), if named then c.parent.value else c.id, if named then c.parent.value else "",
              OrEmpty(c.category), c.text, nameOf(c), c.createdAt, c.updatedAt, c.legacy)
  }

  function RowsOf(nameOf: Comment -> string, visibleIds: set<string>, cs: seq<Comment>): seq<ExportRow> {
    seq(|cs|, i requires 0 <= i < |cs| => RowOf(nameOf, visibleIds, cs[i]))
  }

  /** What the export prints: the comments that pass the filters, in the order of their targets. */
  function Rows(nameOf: Comment -> string, s: State, all: seq<Comment>, who: Exporter,
                passes: Comment -> bool, le: (Comment, Comment) -> bool): seq<ExportRow> {
    var exported := Filter(all, Taken(s, who));
    RowsOf(nameOf, NamedParents(s, who, exported), Sort(Filter(exported, passes), le))
  }

  // --------------------------------------------------------------------------- the loops

  method FilterComments(cs: seq<Comment>, keep: Comment -> bool) returns (kept: seq<Comment>)
    ensures kept == Filter(cs, keep)
  {
    kept := [];
    for i := 0 to |cs|
      invariant kept == Filter(cs[..i], keep)
    {
      assert cs[..i + 1][..i] == cs[..i];
      kept := kept + if keep(cs[i]) then [cs[i]] else [];
    }
    assert cs[..|cs|] == cs;
  }

  lemma OneMore(cs: seq<Comment>, i: nat)
    requires i < |cs|
    ensures Ids(cs[..i + 1]) == Ids(cs[..i]) + {cs[i].id}
    ensures Parents(cs[..i + 1]) == Parents(cs[..i]) + if cs[i].parent.Some? then {cs[i].parent.value} else {}
  {
    assert cs[..i + 1] == cs[..i] + [cs[i]];
    assert forall j :: 0 <= j < i ==> cs[..i + 1][j] == cs[..i][j];
  }

  method IdsOf(cs: seq<Comment>) returns (ids: set<string>)
    ensures ids == Ids(cs)
  {
    ids := {};
    for i := 0 to |cs|
      invariant ids == Ids(cs[..i])
    {
      OneMore(cs, i);
      ids := ids + {cs[i].id};
    }
    assert cs[..|cs|] == cs;
  }

  function Elements(ids: seq<string>): set<string> { set id | id in ids }

  /** Parents that are not exported themselves. */
  method MissingParents(exported: seq<Comment>, visibleIds: set<string>) returns (missing: seq<string>)
    ensures Elements(missing) == Parents(exported) - visibleIds
  {
    missing := [];
    for i := 0 to |exported|
      invariant Elements(missing) == Parents(exported[..i]) - visibleIds
    {
      OneMore(exported, i);
      var parent := exported[i].parent;
      if parent.Some? && parent.value !in visibleIds && parent.value !in missing {
        assert Elements(missing + [parent.value]) == Elements(missing) + {parent.value};
        missing := missing + [parent.value];
      }
    }
    assert exported[..|exported|] == exported;
  }

  /** The parents among these that are still stored and may be named. */
  method AddNamed(s: State, who: Exporter, exportedIds: set<string>, missing: seq<string>) returns (visibleIds: set<string>)
    ensures visibleIds == exportedIds + set id | id in Elements(missing) && id in s.comments && MayName(s, who, s.comments[id])
  {
    visibleIds := exportedIds;
    for i := 0 to |missing|
      invariant visibleIds == exportedIds + set id | id in Elements(missing[..i]) && id in s.comments && MayName(s, who, s.comments[id])
    {
      assert missing[..i + 1] == missing[..i] + [missing[i]];
      assert Elements(missing[..i + 1]) == Elements(missing[..i]) + {missing[i]};
      if missing[i] in s.comments && MayName(s, who, s.comments[missing[i]]) {
        visibleIds := visibleIds + {missing[i]};
      }
    }
    assert missing[..|missing|] == missing;
  }

  method PrintRows(nameOf: Comment -> string, visibleIds: set<string>, sorted: seq<Comment>) returns (printed: seq<ExportRow>)
    ensures printed == RowsOf(nameOf, visibleIds, sorted)
  {
    printed := [];
    for i := 0 to |sorted|
      invariant printed == RowsOf(nameOf, visibleIds, sorted[..i])
    {
      assert sorted[..i + 1] == sorted[..i] + [sorted[i]];
      printed := printed + [RowOf(nameOf, visibleIds, sorted[i])];
    }
    assert sorted[..|sorted|] == sorted;
  }

  /** `getReviewExportRows`: `None` without a stable identity. */
  method ReviewExportRows(nameOf: Comment -> string, s: State, all: seq<Comment>, who: Exporter,
                          passes: Comment -> bool, le: (Comment, Comment) -> bool)
    returns (rows: Option<seq<ExportRow>>)
    ensures rows == if who.By? && who.person.userId == None && who.person.credentialId == None then None
                    else Some(Rows(nameOf, s, all, who, passes, le))
  {
    if who.By? && who.person.userId == None && who.person.credentialId == None { return None; }
    var exported := FilterComments(all, Taken(s, who));
    var selected := FilterComments(exported, passes);
    var sorted := Sort(selected, le);
    var exportedIds := IdsOf(exported);
    var missing := MissingParents(exported, exportedIds);
    var visibleIds := AddNamed(s, who, exportedIds, missing);
    assert visibleIds == NamedParents(s, who, exported);
    var printed := PrintRows(nameOf, visibleIds, sorted);
    return Some(printed);
  }

  // ------------------------------------------------------------------ thread and export

  /** The stored comments, in any order. */
  ghost predicate Lists(s: State, all: seq<Comment>) {
    && (forall c :: c in all ==> c.id in s.comments && s.comments[c.id] == c)
    && (forall id :: id in s.comments ==> s.comments[id] in all)
  }

  /** A thread with the root of each of its replies. */
  ghost predicate WholeThread(s: State, cs: seq<Comment>) {
    IsThread(s, cs) && forall c :: c in cs && c.parent.Some? ==> c.parent.value in s.comments && s.comments[c.parent.value] in cs
  }

  lemma InIds(cs: seq<Comment>, c: Comment)
    requires c in cs
    ensures c.id in Ids(cs) && (c.parent.Some? ==> c.parent.value in Parents(cs))
  {
    var i :| 0 <= i < |cs| && cs[i] == c;
  }

  /** Whether the id of a comment in the store is among these. */
  lemma StoredId(s: State, cs: seq<Comment>, id: string)
    requires IsThread(s, cs) && id in s.comments && s.comments[id].id == id
    ensures id in Ids(cs) <==> s.comments[id] in cs
  {
    if id in Ids(cs) {
      var i :| 0 <= i < |cs| && cs[i].id == id;
      assert cs[i] in cs;
    }
    if s.comments[id] in cs { InIds(cs, s.comments[id]); }
  }

  lemma ResponseIsThread(s: State, cs: seq<Comment>, mode: Mode, a: Actor, idLe: (string, string) -> bool)
    requires IsThread(s, cs)
    ensures IsThread(s, Response(mode, a, cs, idLe))
  {
    forall c | c in Response(mode, a, cs, idLe) ensures c in cs {
      InResponse(mode, a, cs, idLe, c);
    }
  }

  lemma ExportedIsThread(s: State, all: seq<Comment>, who: Exporter)
    requires Lists(s, all)
    ensures IsThread(s, Filter(all, Taken(s, who)))
  {
    FilterKeeps(all, Taken(s, who));
  }

  /** The thread shows a parent exactly if it may be named in the export of visible comments. */
  lemma ParentNamed(s: State, all: seq<Comment>, cs: seq<Comment>, p: Person, idLe: (string, string) -> bool, c: Comment)
    requires Inv(s) && Lists(s, all) && WholeThread(s, cs) && c in cs && c.parent.Some?
    requires Seen(s.config.mode, ActorFor(s.config, p))(c)
    ensures var mode, a := s.config.mode, ActorFor(s.config, p);
      c.parent.value in Ids(Response(mode, a, cs, idLe)) <==>
      c.parent.value in NamedParents(s, By(p, true), Filter(all, Taken(s, By(p, true))))
  {
    var mode, a := s.config.mode, ActorFor(s.config, p);
    var parent := s.comments[c.parent.value];
    var visible, exported := Filter(cs, Seen(mode, a)), Filter(all, Seen(mode, a));
    FilterKeeps(cs, Seen(mode, a));
    FilterKeeps(all, Seen(mode, a));
    InIds(visible, c);
    assert c in all by { assert s.comments[c.id] in all; }
    InIds(exported, c);
    assert parent in all;
    ResponseIsThread(s, cs, mode, a, idLe);
    ExportedIsThread(s, all, By(p, true));
    StoredId(s, Response(mode, a, cs, idLe), parent.id);
    StoredId(s, exported, parent.id);
    InResponse(mode, a, cs, idLe, parent);
  }

  lemma RowIsPrinted(nameOf: Comment -> string, s: State, all: seq<Comment>, who: Exporter,
                     passes: Comment -> bool, le: (Comment, Comment) -> bool, c: Comment) returns (i: nat)
    requires c in all && Taken(s, who)(c) && passes(c)
    ensures i < |Rows(nameOf, s, all, who, passes, le)|
    ensures Rows(nameOf, s, all, who, passes, le)[i] == RowOf(nameOf, NamedParents(s, who, Filter(all, Taken(s, who))), c)
  {
    var exported := Filter(all, Taken(s, who));
    FilterKeeps(all, Taken(s, who));
    FilterKeeps(exported, passes);
    var sorted := Sort(Filter(exported, passes), le);
    InSorted(Filter(exported, passes), le, c);
    i :| 0 <= i < |sorted| && sorted[i] == c;
  }

  /** A row says what the comment says. */
  ghost predicate Says(nameOf: Comment -> string, row: ExportRow, c: Comment) {
    && row.text == c.text && row.author == nameOf(c) && row.group == OrEmpty(c.group) && row.category == OrEmpty(c.category)
    && row.createdAt == c.createdAt && row.updatedAt == c.updatedAt && row.legacy == c.legacy
    && (if row.parent == "" then row.threadId == c.id || c.parent == Some("") else c.parent == Some(row.parent) && row.threadId == row.parent)
  }

  /** An export prints exactly the comments that it takes and that pass the filters, in their order. */
  lemma RowsAreExact(nameOf: Comment -> string, s: State, all: seq<Comment>, who: Exporter,
                     passes: Comment -> bool, le: (Comment, Comment) -> bool)
    requires TotalPreorder(le)
    ensures var rows, printed := Rows(nameOf, s, all, who, passes, le), Sort(Filter(Filter(all, Taken(s, who)), passes), le);
      && (forall c :: c in printed <==> c in all && Taken(s, who)(c) && passes(c))
      && Sorted(printed, le)
      && |rows| == |printed| && forall i :: 0 <= i < |rows| ==> Says(nameOf, rows[i], printed[i])
  {
    var exported := Filter(all, Taken(s, who));
    FilterKeeps(all, Taken(s, who));
    FilterKeeps(exported, passes);
    forall c ensures c in Sort(Filter(exported, passes), le) <==> c in Filter(exported, passes) { InSorted(Filter(exported, passes), le, c); }
    SortSorts(Filter(exported, passes), le);
  }

  /** Deleted comments are never taken; of a person's own comments nothing else is asked outside group mode. */
  lemma TakenExactly(s: State, who: Exporter, c: Comment)
    ensures Taken(s, who)(c) <==>
      && !c.deleted
      && match who {
           case Everything => true
           case By(p, visible) =>
             var sees := CanView(s.config.mode, ActorFor(s.config, p), c);
             if visible then sees
             else (if p.credentialId.Some? then c.credentialId == p.credentialId else c.userId == p.userId) && (s.config.mode == Grouped ==> sees)
         }
  {
  }

  /** A comment that the thread does not show as deleted is one that the person sees. */
  lemma ShownIsSeen(nameOf: Comment -> string, s: State, cs: seq<Comment>, mode: Mode, a: Actor, idLe: (string, string) -> bool, j: nat) returns (c: Comment)
    requires IsThread(s, cs) && j < |Thread(nameOf, mode, a, cs, idLe)| && !Thread(nameOf, mode, a, cs, idLe)[j].deleted
    ensures c in cs && Seen(mode, a)(c) && c.id in s.comments && s.comments[c.id] == c
    ensures Thread(nameOf, mode, a, cs, idLe)[j] == ViewOf(nameOf, a.person, c, Ids(Response(mode, a, cs, idLe)))
  {
    c := Response(mode, a, cs, idLe)[j];
    assert c in Response(mode, a, cs, idLe);
    InResponse(mode, a, cs, idLe, c);
  }

  /** The row names the parent, and the thread, as the view shows them. */
  predicate SameParent(row: ExportRow, view: View) {
    && row.parent == (if view.parentVisible then OrEmpty(view.parent) else "")
    && row.threadId == (if view.parentVisible && view.parent.Some? then view.parent.value else view.id)
  }

  lemma ViewAndRow(nameOf: Comment -> string, p: Person, c: Comment, shown: set<string>, named: set<string>)
    requires c.parent.Some? ==> (c.parent.value in shown <==> c.parent.value in named)
    ensures SameParent(RowOf(nameOf, named, c), ViewOf(nameOf, p, c, shown))
  {
  }

  /** A visible comment of a thread that passes the filters has a row in the export of visible
      comments, which names its parent exactly if the thread shows the parent. */
  lemma ThreadAndExportAgree(nameOf: Comment -> string, s: State, all: seq<Comment>, cs: seq<Comment>, p: Person,
                             idLe: (string, string) -> bool, passes: Comment -> bool, le: (Comment, Comment) -> bool, j: nat)
    returns (c: Comment, i: nat)
    requires Inv(s) && Lists(s, all) && WholeThread(s, cs)
    requires var thread := Thread(nameOf, s.config.mode, ActorFor(s.config, p), cs, idLe);
      j < |thread| && !thread[j].deleted && thread[j].id in s.comments && passes(s.comments[thread[j].id])
    ensures var view := Thread(nameOf, s.config.mode, ActorFor(s.config, p), cs, idLe)[j];
      && c.id == view.id && c.id in s.comments && s.comments[c.id] == c
      && i < |Rows(nameOf, s, all, By(p, true), passes, le)|
      && Rows(nameOf, s, all, By(p, true), passes, le)[i]
         == RowOf(nameOf, NamedParents(s, By(p, true), Filter(all, Taken(s, By(p, true)))), c)
      && SameParent(Rows(nameOf, s, all, By(p, true), passes, le)[i], view)
  {
    var mode, a := s.config.mode, ActorFor(s.config, p);
    c := ShownIsSeen(nameOf, s, cs, mode, a, idLe, j);
    if c.parent.Some? { ParentNamed(s, all, cs, p, idLe, c); }
    ViewAndRow(nameOf, p, c, Ids(Response(mode, a, cs, idLe)), NamedParents(s, By(p, true), Filter(all, Taken(s, By(p, true)))));
    i := RowIsPrinted(nameOf, s, all, By(p, true), passes, le, c);
  }
}
