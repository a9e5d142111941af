/** backend/src/comments/review-policy.service.ts: who may see, answer and change a comment, and
    which groups and categories may be chosen. */
module ReviewPolicy {
  import opened Outcomes

  datatype Mode = Private | Shared | Grouped

  datatype MemberKind = User | Credential

  datatype Member = Member(kind: MemberKind, id: string)

  datatype Group = Group(id: string, name: string, archived: bool, members: seq<Member>)

  datatype Category = Category(id: string, name: string, archived: bool)

  datatype TargetType = Booklet | Unit | ItemTarget | Coding | TaskSequence

  /** The review settings of an ACP's access configuration. */
  datatype Config = Config(
    version: nat, revision: nat,
    mode: Mode, ungroupedMode: Mode,
    reviewEnabled: bool, commentingEnabled: bool, targets: seq<TargetType>,
    groups: seq<Group>, categories: seq<Category>)

  /** An ACP without access configuration. */
  const NO_CONFIG := Config(0, 0, Private, Private, false, false, [], [], [])

  datatype Comment = Comment(
    id: string,
    userId: Option<string>, credentialId: Option<string>,
    targetType: TargetType, targetId: string, bookletId: Option<string>, unitId: Option<string>, itemId: Option<string>,
    parent: Option<string>, group: Option<string>, category: Option<string>,
    text: string, version: nat, deleted: bool, legacy: bool, createdAt: nat, updatedAt: nat)

  /** Who asks; the request itself says no more. */
  datatype Person = Person(userId: Option<string>, credentialId: Option<string>, manager: bool)

  /** The asking person with what `getFeatureConfig` adds. */
  datatype Actor = Actor(person: Person, groups: seq<Group>, categories: seq<Category>, ungroupedShared: bool)

  predicate Is(m: Member, p: Person) {
    match m.kind
    case User => p.userId == Some(m.id)
    case Credential => p.credentialId == Some(m.id)
  }

  predicate IsMember(g: Group, p: Person) { exists i :: 0 <= i < |g.members| && Is(g.members[i], p) }

  predicate Offers(g: Group, p: Person) { p.manager || (!g.archived && IsMember(g, p)) }

  function GroupsFor(groups: seq<Group>, p: Person): seq<Group> {
    if groups == [] then []
    else GroupsFor(groups[..|groups| - 1], p) + if Offers(groups[|groups| - 1], p) then [groups[|groups| - 1]] else []
  }

  function ActorFor(config: Config, p: Person): Actor {
    Actor(p, GroupsFor(config.groups, p), config.categories, config.ungroupedMode == Shared)
  }

  predicate HasGroup(groups: seq<Group>, id: string) { exists i :: 0 <= i < |groups| && groups[i].id == id }

  predicate HasCategory(categories: seq<Category>, id: string) { exists i :: 0 <= i < |categories| && categories[i].id == id }

  predicate OwnedBy(c: Comment, p: Person) {
    if p.userId.Some? && c.userId.Some? then p.userId == c.userId
    else p.credentialId.Some? && p.credentialId == c.credentialId
  }

  predicate CanView(mode: Mode, a: Actor, c: Comment) {
    a.person.manager ||
    if mode == Grouped && c.group.Some? then HasGroup(a.groups, c.group.value)
    else mode == Shared || (mode == Grouped && a.ungroupedShared) || OwnedBy(c, a.person)
  }

  predicate TargetEnabled(targets: seq<TargetType>, t: TargetType) {
    if targets != [] then t in targets else t != Booklet && t != Coding
  }

  /** `assertCommentAccess` */
  predicate MayComment(config: Config, p: Person, t: TargetType) {
    && (p.userId.Some? || p.credentialId.Some?)
    && t != TaskSequence
    && (config.commentingEnabled || p.manager) && TargetEnabled(config.targets, t)
  }

  /** `selectCategory`; `None` is an absent request, `Some(None)` one for no category. */
  function SelectCategory(a: Actor, requested: Option<Option<string>>, current: Option<string>): Option<Option<string>> {
    match requested
    case None => Some(current)
    case Some(None) => Some(None)
    case Some(Some(id)) => if Available(a.categories, id, current) then Some(Some(id)) else None
  }

  /** The first category with this id is not archived, or it is the current one. */
  predicate Available(categories: seq<Category>, id: string, current: Option<string>) {
    categories != [] &&
    if categories[0].id == id then !categories[0].archived || current == Some(id) else Available(categories[1..], id, current)
  }

  function Unarchived(groups: seq<Group>): seq<Group> {
    if groups == [] then []
    else Unarchived(groups[..|groups| - 1]) + if groups[|groups| - 1].archived then [] else [groups[|groups| - 1]]
  }

  /** `selectGroup`: the group of a new thread, `Some(None)` outside group mode. */
  function SelectGroup(mode: Mode, a: Actor, requested: Option<string>): Option<Option<string>> {
    if mode != Grouped then if requested.Some? then None else Some(None)
    else
      var groups := Unarchived(a.groups);
      var id := if requested.Some? then requested else if !a.person.manager && |groups| == 1 then Some(groups[0].id) else None;
      if id.Some? && HasGroup(groups, id.value) then Some(id) else None
  }

  // ------------------------------------------------------------ choices lie in the configuration

  ghost predicate Offered(groups: seq<Group>, p: Person, id: string) {
    exists i :: 0 <= i < |groups| && groups[i].id == id && Offers(groups[i], p)
  }

  lemma {:induction false} OfferedGroups(groups: seq<Group>, p: Person, id: string)
    ensures HasGroup(GroupsFor(groups, p), id) <==> Offered(groups, p, id)
  {
    if groups != [] {
      var n := |groups| - 1;
      OfferedGroups(groups[..n], p, id);
      assert forall i :: 0 <= i < n ==> groups[..n][i] == groups[i];
      assert Offered(groups, p, id) <==> Offered(groups[..n], p, id) || (groups[n].id == id && Offers(groups[n], p));
      var own := if Offers(groups[n], p) then [groups[n]] else [];
      HasGroupConcat(GroupsFor(groups[..n], p), own, id);
      assert HasGroup(own, id) <==> groups[n].id == id && Offers(groups[n], p) by {
        if Offers(groups[n], p) { assert own[0] == groups[n]; }
      }
    }
  }

  lemma HasGroupConcat(a: seq<Group>, b: seq<Group>, id: string)
    ensures HasGroup(a + b, id) <==> HasGroup(a, id) || HasGroup(b, id)
  {
    assert forall i :: 0 <= i < |a| ==> (a + b)[i] == a[i];
    assert forall i :: 0 <= i < |b| ==> (a + b)[|a| + i] == b[i];
    if HasGroup(b, id) {
      var i :| 0 <= i < |b| && b[i].id == id;
      assert (a + b)[|a| + i].id == id;
    }
  }

  lemma {:induction false} UnarchivedGroups(groups: seq<Group>, id: string)
    ensures HasGroup(Unarchived(groups), id) ==> HasGroup(groups, id)
  {
    if groups != [] {
      var n := |groups| - 1;
      UnarchivedGroups(groups[..n], id);
      HasGroupConcat(Unarchived(groups[..n]), if groups[n].archived then [] else [groups[n]], id);
      HasGroupConcat(groups[..n], [groups[n]], id);
      assert groups == groups[..n] + [groups[n]];
    }
  }

  /** A chosen group is one of the configuration; so is a chosen category, unless it is the one
      the comment had. */
  lemma ChoicesAreConfigured(config: Config, mode: Mode, p: Person, group: Option<string>, category: Option<Option<string>>, current: Option<string>)
    ensures var g := SelectGroup(mode, ActorFor(config, p), group);
      g.Some? && g.value.Some? ==> HasGroup(config.groups, g.value.value)
    ensures var c := SelectCategory(ActorFor(config, p), category, current);
      c.Some? && c.value.Some? && c.value != current ==> HasCategory(config.categories, c.value.value)
  {
    var g := SelectGroup(mode, ActorFor(config, p), group);
    if g.Some? && g.value.Some? {
      UnarchivedGroups(GroupsFor(config.groups, p), g.value.value);
      OfferedGroups(config.groups, p, g.value.value);
    }
    if category.Some? && category.value.Some? { AvailableCategories(config.categories, category.value.value, current); }
  }

  lemma {:induction false} AvailableCategories(categories: seq<Category>, id: string, current: Option<string>)
    ensures Available(categories, id, current) ==> HasCategory(categories, id)
  {
    if categories != [] && categories[0].id != id {
      AvailableCategories(categories[1..], id, current);
      assert forall i :: 0 <= i < |categories[1..]| ==> categories[1..][i] == categories[i + 1];
    }
  }

  /** A member of a group that is not archived sees its comments in group mode, and nobody else
      but managers does. */
  lemma GroupCommentsAreForMembers(config: Config, p: Person, c: Comment)
    requires config.mode == Grouped && c.group.Some?
    ensures CanView(config.mode, ActorFor(config, p), c) <==>
      p.manager || exists i :: 0 <= i < |config.groups| && config.groups[i].id == c.group.value && !config.groups[i].archived && IsMember(config.groups[i], p)
  {
    OfferedGroups(config.groups, p, c.group.value);
  }

  /** Who sees a comment, mode by mode. */
  lemma VisibilityExactly(config: Config, p: Person, c: Comment)
    ensures CanView(config.mode, ActorFor(config, p), c) <==>
      || p.manager
      || match config.mode {
           case Private => OwnedBy(c, p)
           case Shared => true
           case Grouped =>
             if c.group == None then config.ungroupedMode == Shared || OwnedBy(c, p)
             else exists i :: 0 <= i < |config.groups| && config.groups[i].id == c.group.value && !config.groups[i].archived && IsMember(config.groups[i], p)
         }
  {
    if config.mode == Grouped && c.group.Some? { GroupCommentsAreForMembers(config, p, c); }
  }

  /** Nobody comments anonymously or on a task sequence, and only managers where comments are switched off;
      if no targets are configured these are units and items. */
  lemma WhoMayComment(config: Config, p: Person, t: TargetType)
    ensures MayComment(config, p, t) <==>
      && !(p.userId == None && p.credentialId == None)
      && (p.manager || config.commentingEnabled)
      && (if config.targets == [] then t == Unit || t == ItemTarget else t != TaskSequence && t in config.targets)
  {
  }
}
