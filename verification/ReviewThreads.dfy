/** backend/src/comments/comments.service.ts: the thread that a person is shown. */
module ReviewThreads {
  import opened Outcomes
  import opened ReviewPolicy
  import opened ReviewWorkspace
  import opened Sorting

  /** What a thread shows of a comment. `nameOf` resolves an author's name. */
  datatype View = View(
    id: string, targetType: TargetType, targetId: string, bookletId: Option<string>, unitId: Option<string>, itemId: Option<string>,
    parent: Option<string>, category: Option<string>, group: Option<string>, parentVisible: bool,
    text: string, author: Option<string>, createdAt: nat, updatedAt: nat, version: nat, own: bool, deleted: bool, legacy: bool)

  /** `toCommentView`; the author of a deleted comment is nobody. */
  function ViewOf(nameOf: Comment -> string, p: Person, c: Comment, visibleIds: set<string>): View {
    View(c.id, c.targetType, c.targetId, c.bookletId, c.unitId, c.itemId, c.parent,
         if c.deleted then None else c.category, c.group, c.parent == None || c.parent.value in visibleIds,
         if c.deleted then "" else c.text, if c.deleted then None else Some(nameOf(c)), c.createdAt, c.updatedAt, c.version,
         !c.deleted && !c.legacy && OwnedBy(c, p), c.deleted, c.legacy)
  }

  function Filter(cs: seq<Comment>, keep: Comment -> bool): seq<Comment> {
    if cs == [] then [] else Filter(cs[..|cs| - 1], keep) + if keep(cs[|cs| - 1]) then [cs[|cs| - 1]] else []
  }

  function Seen(mode: Mode, a: Actor): Comment -> bool { (c: Comment) => !c.deleted && CanView(mode, a, c) }

  function Parents(cs: seq<Comment>): set<string> {
    set i | 0 <= i < |cs| && cs[i].parent.Some? :: cs[i].parent.value
  }

  function Ids(cs: seq<Comment>): set<string> { set i | 0 <= i < |cs| :: cs[i].id }

  /** Deleted comments that visible ones answer. */
  function DeletedParent(mode: Mode, a: Actor, required: set<string>): Comment -> bool {
    (c: Comment) => c.deleted && c.id in required && (mode != Grouped || CanView(mode, a, c))
  }

  /** Oldest first; `idLe` is the collator for ids. */
  function Earlier(idLe: (string, string) -> bool): (Comment, Comment) -> bool {
    (b: Comment, c: Comment) => if b.createdAt != c.createdAt then b.createdAt < c.createdAt else idLe(b.id, c.id)
  }

  function Response(mode: Mode, a: Actor, cs: seq<Comment>, idLe: (string, string) -> bool): seq<Comment> {
    var visible := Filter(cs, Seen(mode, a));
    Sort(visible + Filter(cs, DeletedParent(mode, a, Parents(visible))), Earlier(idLe))
  }

  function Views(nameOf: Comment -> string, p: Person, cs: seq<Comment>, visibleIds: set<string>): seq<View> {
    seq(|cs|, i requires 0 <= i < |cs| => ViewOf(nameOf, p, cs[i], visibleIds))
  }

  /** `getReviewThread` over the comments of a target. */
  function Thread(nameOf: Comment -> string, mode: Mode, a: Actor, cs: seq<Comment>, idLe: (string, string) -> bool): seq<View> {
    var response := Response(mode, a, cs, idLe);
    Views(nameOf, a.person, response, Ids(response))
  }

  // --------------------------------------------------------------- what a thread depends on

  /** A deleted comment without its text, its category and its author. */
  function Veiled(c: Comment): Comment {
    if c.deleted then c.(text := "", category := None, userId := None, credentialId := None) else c
  }

  function VeiledAll(cs: seq<Comment>): seq<Comment> { seq(|cs|, i requires 0 <= i < |cs| => Veiled(cs[i])) }

  /** All that a person may learn: the comments the person may see, and text-free tombstones of the
      deleted ones that they answer. */
  function Observable(mode: Mode, a: Actor, cs: seq<Comment>): (seq<Comment>, seq<Comment>) {
    var visible := Filter(cs, Seen(mode, a));
    (visible, VeiledAll(Filter(cs, DeletedParent(mode, a, Parents(visible)))))
  }

  lemma {:induction false} FilterKeeps(cs: seq<Comment>, keep: Comment -> bool)
    ensures forall c :: c in Filter(cs, keep) <==> c in cs && keep(c)
  {
    if cs != [] {
      FilterKeeps(cs[..|cs| - 1], keep);
      assert cs == cs[..|cs| - 1] + [cs[|cs| - 1]];
    }
  }

  /** The order looks at nothing that a veil hides. */
  ghost predicate Blind(le: (Comment, Comment) -> bool) {
    forall b, c :: le(Veiled(b), Veiled(c)) == le(b, c)
  }

  lemma BlindAt(le: (Comment, Comment) -> bool, b: Comment, c: Comment)
    requires Blind(le)
    ensures le(Veiled(b), Veiled(c)) == le(b, c)
  {
  }

  lemma VeiledOneMore(s: seq<Comment>, x: Comment)
    ensures VeiledAll(s + [x]) == VeiledAll(s) + [Veiled(x)] && VeiledAll(s + [x])[..|s|] == VeiledAll(s)
  {
  }

  lemma {:induction false} InsertVeiled(s: seq<Comment>, x: Comment, le: (Comment, Comment) -> bool)
    requires Blind(le)
    ensures VeiledAll(Insert(s, x, le)) == Insert(VeiledAll(s), Veiled(x), le)
  {
    if s != [] { BlindAt(le, s[|s| - 1], x); }
    if s == [] || le(s[|s| - 1], x) {
      VeiledOneMore(s, x);
    } else {
      var n := |s| - 1;
      InsertVeiled(s[..n], x, le);
      VeiledOneMore(s[..n], s[n]);
      assert s == s[..n] + [s[n]];
      VeiledOneMore(Insert(s[..n], x, le), s[n]);
    }
  }

  lemma {:induction false} SortVeiled(s: seq<Comment>, le: (Comment, Comment) -> bool)
    requires Blind(le)
    ensures VeiledAll(Sort(s, le)) == Sort(VeiledAll(s), le)
  {
    if s != [] {
      var n := |s| - 1;
      SortVeiled(s[..n], le);
      InsertVeiled(Sort(s[..n], le), s[n], le);
      assert VeiledAll(s)[..n] == VeiledAll(s[..n]);
    }
  }

  /** Tombstones look like the comments they stand for. */
  lemma ViewsOfVeiled(nameOf: Comment -> string, p: Person, cs: seq<Comment>)
    ensures Views(nameOf, p, VeiledAll(cs), Ids(VeiledAll(cs))) == Views(nameOf, p, cs, Ids(cs))
  {
    var veiled := VeiledAll(cs);
    assert Ids(veiled) == Ids(cs) by {
      assert forall i :: 0 <= i < |cs| ==> veiled[i].id == cs[i].id;
    }
    assert forall i :: 0 <= i < |cs| ==> ViewOf(nameOf, p, veiled[i], Ids(cs)) == ViewOf(nameOf, p, cs[i], Ids(cs));
  }

  /** The thread is made of what is observable. */
  function Rendered(nameOf: Comment -> string, p: Person, observable: (seq<Comment>, seq<Comment>), idLe: (string, string) -> bool): seq<View> {
    var response := Sort(observable.0 + observable.1, Earlier(idLe));
    Views(nameOf, p, response, Ids(response))
  }

  lemma ThreadShowsTheObservable(nameOf: Comment -> string, mode: Mode, a: Actor, cs: seq<Comment>, idLe: (string, string) -> bool)
    ensures Thread(nameOf, mode, a, cs, idLe) == Rendered(nameOf, a.person, Observable(mode, a, cs), idLe)
  {
    var visible := Filter(cs, Seen(mode, a));
    var tombs := Filter(cs, DeletedParent(mode, a, Parents(visible)));
    FilterKeeps(cs, Seen(mode, a));
    assert forall i :: 0 <= i < |visible| ==> visible[i] in visible;
    assert VeiledAll(visible + tombs) == visible + VeiledAll(tombs);
    SortVeiled(visible + tombs, Earlier(idLe));
    ViewsOfVeiled(nameOf, a.person, Sort(visible + tombs, Earlier(idLe)));
  }

  /** Whatever else differs between two sets of comments, a person to whom they show the same
      observable part is shown the same thread. */
  lemma HiddenCommentsDoNotMatter(nameOf: Comment -> string, mode: Mode, a: Actor, b: seq<Comment>, c: seq<Comment>, idLe: (string, string) -> bool)
    requires Observable(mode, a, b) == Observable(mode, a, c)
    ensures Thread(nameOf, mode, a, b, idLe) == Thread(nameOf, mode, a, c, idLe)
  {
    ThreadShowsTheObservable(nameOf, mode, a, b, idLe);
    ThreadShowsTheObservable(nameOf, mode, a, c, idLe);
  }

  /** Every tombstone is the parent of a visible comment and says nothing. */
  lemma TombstonesAreSilent(mode: Mode, a: Actor, cs: seq<Comment>, i: nat)
    requires i < |Observable(mode, a, cs).1|
    ensures var t := Observable(mode, a, cs).1[i];
      && t.deleted && t.text == "" && t.category == None && t.userId == None && t.credentialId == None
      && exists c :: c in Observable(mode, a, cs).0 && c.parent == Some(t.id) && CanView(mode, a, c) && !c.deleted
  {
    var visible := Filter(cs, Seen(mode, a));
    var tombs := Filter(cs, DeletedParent(mode, a, Parents(visible)));
    FilterKeeps(cs, Seen(mode, a));
    FilterKeeps(cs, DeletedParent(mode, a, Parents(visible)));
    assert tombs[i] in tombs;
    var j :| 0 <= j < |visible| && visible[j].parent == Some(tombs[i].id);
    assert visible[j] in visible;
  }

  lemma InSorted(cs: seq<Comment>, le: (Comment, Comment) -> bool, c: Comment)
    ensures c in Sort(cs, le) <==> c in cs
  {
    SortKeepsMembers(cs, le, c);
  }

  lemma InResponse(mode: Mode, a: Actor, cs: seq<Comment>, idLe: (string, string) -> bool, c: Comment)
    ensures c in Response(mode, a, cs, idLe)
       <==> c in cs && (Seen(mode, a)(c) || DeletedParent(mode, a, Parents(Filter(cs, Seen(mode, a))))(c))
  {
    var visible := Filter(cs, Seen(mode, a));
    var tombs := Filter(cs, DeletedParent(mode, a, Parents(visible)));
    FilterKeeps(cs, Seen(mode, a));
    FilterKeeps(cs, DeletedParent(mode, a, Parents(visible)));
    InSorted(visible + tombs, Earlier(idLe), c);
    assert c in visible + tombs <==> c in visible || c in tombs;
  }

  /** A view says of a comment what is the same for all who see it; of a deleted one neither text nor category
      nor author. */
  ghost predicate Presents(nameOf: Comment -> string, p: Person, v: View, c: Comment) {
    && v.id == c.id && v.targetType == c.targetType && v.targetId == c.targetId
    && v.bookletId == c.bookletId && v.unitId == c.unitId && v.itemId == c.itemId
    && v.parent == c.parent && v.group == c.group && v.version == c.version
    && v.createdAt == c.createdAt && v.updatedAt == c.updatedAt && v.deleted == c.deleted && v.legacy == c.legacy
    && if c.deleted then v.text == "" && v.category == None && v.author == None && !v.own
       else v.text == c.text && v.category == c.category && v.author == Some(nameOf(c)) && (v.own <==> !c.legacy && OwnedBy(c, p))
  }

  /** A deleted comment that a visible one answers; in group mode only where the person may see its group. */
  ghost predicate IsTombstone(mode: Mode, a: Actor, cs: seq<Comment>, c: Comment) {
    && c.deleted && (mode == Grouped ==> CanView(mode, a, c))
    && exists d :: d in cs && !d.deleted && CanView(mode, a, d) && d.parent == Some(c.id)
  }

  lemma TombstoneExactly(mode: Mode, a: Actor, cs: seq<Comment>, c: Comment)
    ensures DeletedParent(mode, a, Parents(Filter(cs, Seen(mode, a))))(c) <==> IsTombstone(mode, a, cs, c)
  {
    var visible := Filter(cs, Seen(mode, a));
    FilterKeeps(cs, Seen(mode, a));
    if c.id in Parents(visible) {
      var i :| 0 <= i < |visible| && visible[i].parent == Some(c.id);
      assert visible[i] in visible && Seen(mode, a)(visible[i]);
    }
    if d :| d in cs && !d.deleted && CanView(mode, a, d) && d.parent == Some(c.id) {
      assert Seen(mode, a)(d);
      var i :| 0 <= i < |visible| && visible[i] == d;
    }
  }

  ghost predicate BelongsIn(mode: Mode, a: Actor, cs: seq<Comment>, c: Comment) {
    c in cs && ((!c.deleted && CanView(mode, a, c)) || IsTombstone(mode, a, cs, c))
  }

  lemma EarlierIsOrder(idLe: (string, string) -> bool)
    requires TotalPreorder(idLe)
    ensures TotalPreorder(Earlier(idLe))
  {
    var le := Earlier(idLe);
    forall b: Comment, c: Comment ensures le(b, c) || le(c, b) { assert idLe(b.id, c.id) || idLe(c.id, b.id); }
    forall b: Comment, c: Comment, d: Comment | le(b, c) && le(c, d) ensures le(b, d) {
      assert idLe(b.id, c.id) && idLe(c.id, d.id) ==> idLe(b.id, d.id);
    }
  }

  ghost function Belonging(mode: Mode, a: Actor, cs: seq<Comment>): Comment -> bool { (c: Comment) => BelongsIn(mode, a, cs, c) }

  ghost predicate IsPresented(nameOf: Comment -> string, p: Person, views: seq<View>, c: Comment) {
    exists j :: 0 <= j < |views| && Presents(nameOf, p, views[j], c)
  }

  ghost predicate PresentsOne(nameOf: Comment -> string, p: Person, v: View, among: Comment -> bool) {
    exists c :: among(c) && Presents(nameOf, p, v, c)
  }

  /** The views present these comments, each of them and no other. */
  ghost predicate PresentAll(nameOf: Comment -> string, p: Person, views: seq<View>, among: Comment -> bool) {
    && (forall c :: among(c) ==> IsPresented(nameOf, p, views, c))
    && forall j :: 0 <= j < |views| ==> PresentsOne(nameOf, p, views[j], among)
  }

  ghost predicate OldestFirst(views: seq<View>, idLe: (string, string) -> bool) {
    forall j, k :: 0 <= j < k < |views| ==>
      views[j].createdAt < views[k].createdAt || (views[j].createdAt == views[k].createdAt && idLe(views[j].id, views[k].id))
  }

  ghost predicate HasView(views: seq<View>, id: string) { exists k :: 0 <= k < |views| && views[k].id == id }

  /** Each view tells whether the parent is shown. */
  ghost predicate TellParents(views: seq<View>) {
    forall j :: 0 <= j < |views| ==> (views[j].parentVisible <==> (views[j].parent.Some? ==> HasView(views, views[j].parent.value)))
  }

  /** A thread shows exactly the comments that the person may see and the deleted ones which these answer, the
      oldest first, and says of each whether its parent is shown. */
  lemma ThreadShowsExactly(nameOf: Comment -> string, mode: Mode, a: Actor, cs: seq<Comment>, idLe: (string, string) -> bool)
    requires TotalPreorder(idLe)
    ensures var thread := Thread(nameOf, mode, a, cs, idLe);
      PresentAll(nameOf, a.person, thread, Belonging(mode, a, cs)) && OldestFirst(thread, idLe) && TellParents(thread)
  {
    var response := Response(mode, a, cs, idLe);
    forall c ensures c in response <==> Belonging(mode, a, cs)(c) {
      InResponse(mode, a, cs, idLe, c);
      TombstoneExactly(mode, a, cs, c);
    }
    ViewsPresent(nameOf, a.person, response, Belonging(mode, a, cs));
    ThreadIsOrdered(mode, a, cs, idLe);
    ViewsAreOrdered(nameOf, a.person, response, idLe);
    ShownIds(nameOf, a.person, response, Thread(nameOf, mode, a, cs, idLe));
  }

  lemma ViewPresents(nameOf: Comment -> string, p: Person, c: Comment, visibleIds: set<string>)
    ensures Presents(nameOf, p, ViewOf(nameOf, p, c, visibleIds), c)
  {
  }

  lemma ViewsPresent(nameOf: Comment -> string, p: Person, cs: seq<Comment>, among: Comment -> bool)
    requires forall c :: c in cs <==> among(c)
    ensures PresentAll(nameOf, p, Views(nameOf, p, cs, Ids(cs)), among)
  {
    var views := Views(nameOf, p, cs, Ids(cs));
    forall c | among(c) ensures IsPresented(nameOf, p, views, c) {
      assert c in cs;
      var j :| 0 <= j < |cs| && cs[j] == c;
      ViewPresents(nameOf, p, c, Ids(cs));
      assert Presents(nameOf, p, views[j], c);
    }
    forall j | 0 <= j < |views| ensures PresentsOne(nameOf, p, views[j], among) {
      ViewPresents(nameOf, p, cs[j], Ids(cs));
      assert cs[j] in cs && among(cs[j]);
    }
  }

  lemma ViewsAreOrdered(nameOf: Comment -> string, p: Person, cs: seq<Comment>, idLe: (string, string) -> bool)
    requires Sorted(cs, Earlier(idLe))
    ensures OldestFirst(Views(nameOf, p, cs, Ids(cs)), idLe)
  {
    var views := Views(nameOf, p, cs, Ids(cs));
    forall j, k | 0 <= j < k < |views|
      ensures views[j].createdAt < views[k].createdAt || (views[j].createdAt == views[k].createdAt && idLe(views[j].id, views[k].id))
    {
      assert Earlier(idLe)(cs[j], cs[k]);
    }
  }

  lemma ThreadIsOrdered(mode: Mode, a: Actor, cs: seq<Comment>, idLe: (string, string) -> bool)
    requires TotalPreorder(idLe)
    ensures Sorted(Response(mode, a, cs, idLe), Earlier(idLe))
  {
    var visible := Filter(cs, Seen(mode, a));
    EarlierIsOrder(idLe);
    SortSorts(visible + Filter(cs, DeletedParent(mode, a, Parents(visible))), Earlier(idLe));
  }

  lemma ShownIds(nameOf: Comment -> string, p: Person, cs: seq<Comment>, views: seq<View>)
    requires views == Views(nameOf, p, cs, Ids(cs))
    ensures TellParents(views)
  {
    forall j | 0 <= j < |views| && cs[j].parent.Some? ensures cs[j].parent.value in Ids(cs) <==> HasView(views, cs[j].parent.value) {
      var id := cs[j].parent.value;
      if id in Ids(cs) {
        var k :| 0 <= k < |cs| && cs[k].id == id;
        assert views[k].id == id;
      }
      if HasView(views, id) {
        var k :| 0 <= k < |views| && views[k].id == id;
        assert cs[k].id == id;
      }
    }
  }

  /** The comments of a thread, in any order. */
  ghost predicate IsThread(s: State, cs: seq<Comment>) {
    forall c :: c in cs ==> c.id in s.comments && s.comments[c.id] == c
  }
}
