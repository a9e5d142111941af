/** backend/src/comments/comments.service.ts, backend/src/comments/review-policy.service.ts and
    backend/src/review/review.controller.ts: when a change of the review workspace is accepted, and what an
    accepted one does. */
module ReviewChanges {
  import opened Outcomes
  import opened ReviewPolicy
  import opened ReviewWorkspace
  import opened ReviewThreads
  import opened Text

  // ------------------------------------------------------------------- deletions and edits

  /** The comment is there for the person, who wrote it, may still comment there, and knows it as it is. */
  ghost predicate MayChange(s: State, p: Person, id: string, version: nat) {
    && id in s.comments
    && var c := s.comments[id];
       && !c.deleted && !c.legacy && c.targetType != TaskSequence && c.version == version
       && CanView(s.config.mode, ActorFor(s.config, p), c) && OwnedBy(c, p)
       && MayComment(s.config, p, c.targetType)
  }

  /** One comment is replaced, and nothing else changes. */
  ghost predicate OnlyChanges(s: State, s': State, id: string) {
    && s'.config == s.config && s'.comments.Keys == s.comments.Keys && id in s.comments
    && forall k :: k in s.comments && k != id ==> s'.comments[k] == s.comments[k]
  }

  ghost predicate SeenBySomeone(c: Comment) { exists mode, a: Actor :: Seen(mode, a)(c) }

  /** A deletion is accepted exactly of a comment that may be changed and whose target is known; the
      comment then has no text and is seen by nobody, and everything else stays. */
  lemma DeletionsAreExact(s: State, e: Event)
    requires e.Delete?
    ensures Attempt(s, e).Ok? <==> MayChange(s, e.p, e.id, e.version) && e.known
    ensures Attempt(s, e).Ok? ==> OnlyChanges(s, Step(s, e), e.id)
    ensures Attempt(s, e).Ok? ==>
      var c, c' := s.comments[e.id], Step(s, e).comments[e.id];
      && c'.deleted && c'.text == "" && c'.version == c.version + 1 && c'.updatedAt == e.at && !SeenBySomeone(c')
      && c'.(text := c.text, deleted := false, version := c.version, updatedAt := c.updatedAt) == c
  {
  }

  predicate TextIsAcceptable(raw: string) { 0 < |Trim(raw)| <= 10000 }

  /** The category is configured and not archived, or it is the one that the comment has. Of several with
      one id the first counts. */
  ghost predicate CategoryIsOpen(config: Config, id: string, current: Option<string>) {
    exists i :: FirstCategory(config.categories, id, i) && (!config.categories[i].archived || current == Some(id))
  }

  ghost predicate FirstCategory(categories: seq<Category>, id: string, i: int) {
    0 <= i < |categories| && categories[i].id == id && forall j :: 0 <= j < i ==> categories[j].id != id
  }

  lemma {:induction false} AvailableExactly(categories: seq<Category>, id: string, current: Option<string>)
    ensures Available(categories, id, current) <==>
      exists i :: FirstCategory(categories, id, i) && (!categories[i].archived || current == Some(id))
  {
    if categories != [] {
      if categories[0].id == id {
        assert FirstCategory(categories, id, 0);
      } else {
        AvailableExactly(categories[1..], id, current);
        forall i | 0 < i < |categories| ensures FirstCategory(categories, id, i) <==> FirstCategory(categories[1..], id, i - 1) {
          FirstCategoryBehind(categories, id, i);
        }
        if Available(categories[1..], id, current) {
          var i :| FirstCategory(categories[1..], id, i) && (!categories[1..][i].archived || current == Some(id));
          assert FirstCategory(categories, id, i + 1);
        }
        if i :| FirstCategory(categories, id, i) && (!categories[i].archived || current == Some(id)) {
          assert FirstCategory(categories[1..], id, i - 1);
        }
      }
    }
  }

  lemma FirstCategoryBehind(categories: seq<Category>, id: string, i: int)
    requires 0 < i < |categories| && categories[0].id != id
    ensures FirstCategory(categories, id, i) <==> FirstCategory(categories[1..], id, i - 1)
  {
    assert forall j :: 0 <= j < |categories| - 1 ==> categories[1..][j] == categories[j + 1];
    if FirstCategory(categories[1..], id, i - 1) {
      forall j | 0 <= j < i ensures categories[j].id != id { if j > 0 { assert categories[1..][j - 1].id != id; } }
    }
  }

  /** A request for no category, or none at all, is always acceptable. */
  ghost predicate CategoryIsAcceptable(config: Config, requested: Option<Option<string>>, current: Option<string>) {
    requested.Some? && requested.value.Some? ==> CategoryIsOpen(config, requested.value.value, current)
  }

  lemma CategoryIsChosen(config: Config, p: Person, requested: Option<Option<string>>, current: Option<string>)
    ensures SelectCategory(ActorFor(config, p), requested, current) ==
      if !CategoryIsAcceptable(config, requested, current) then None
      else if requested.Some? then Some(requested.value) else Some(current)
  {
    if requested.Some? && requested.value.Some? { AvailableExactly(config.categories, requested.value.value, current); }
  }

  /** An edit is accepted exactly of a comment that may be changed and whose target is known, with a text
      that is neither blank nor too long and a category that is open; it sets these and leaves everything
      else alone. */
  lemma EditsAreExact(s: State, e: Event)
    requires e.Edit?
    ensures Attempt(s, e).Ok? <==>
      && MayChange(s, e.p, e.id, e.version) && e.known && TextIsAcceptable(e.text)
      && CategoryIsAcceptable(s.config, e.category, s.comments[e.id].category)
    ensures Attempt(s, e).Ok? ==> OnlyChanges(s, Step(s, e), e.id)
    ensures Attempt(s, e).Ok? ==>
      var c, c' := s.comments[e.id], Step(s, e).comments[e.id];
      && c'.text == Trim(e.text) && c'.category == (if e.category.Some? then e.category.value else c.category)
      && c'.version == c.version + 1 && c'.updatedAt == e.at
      && c'.(text := c.text, category := c.category, version := c.version, updatedAt := c.updatedAt) == c
  {
    if e.id in s.comments { CategoryIsChosen(s.config, e.p, e.category, s.comments[e.id].category); }
  }

  /** What fails for nothing but the version is told to be a conflict. */
  lemma StaleIsConflict(s: State, e: Event)
    requires e.Edit? || e.Delete?
    requires e.id in s.comments && MayChange(s, e.p, e.id, s.comments[e.id].version) && (e.Edit? ==> TextIsAcceptable(e.text))
    ensures Attempt(s, e) == Err(Conflict) <==> e.version != s.comments[e.id].version
  {
  }

  // --------------------------------------------------------------------------- creations

  /** A group that takes comments of the person. */
  ghost predicate GroupIsOpen(config: Config, p: Person, id: string) {
    exists i :: 0 <= i < |config.groups| && config.groups[i].id == id && !config.groups[i].archived && (p.manager || IsMember(config.groups[i], p))
  }

  predicate Takes(g: Group, p: Person) { !g.archived && (p.manager || IsMember(g, p)) }

  /** The groups that take comments of a person, in their order. */
  function OpenGroups(groups: seq<Group>, p: Person): seq<Group> {
    if groups == [] then []
    else OpenGroups(groups[..|groups| - 1], p) + if Takes(groups[|groups| - 1], p) then [groups[|groups| - 1]] else []
  }

  lemma UnarchivedOneMore(groups: seq<Group>, g: Group)
    ensures Unarchived(groups + [g]) == Unarchived(groups) + if g.archived then [] else [g]
  {
    assert (groups + [g])[..|groups|] == groups;
  }

  lemma {:induction false} OpenGroupsAre(groups: seq<Group>, p: Person)
    ensures Unarchived(GroupsFor(groups, p)) == OpenGroups(groups, p)
  {
    if groups != [] {
      var rest, g := groups[..|groups| - 1], groups[|groups| - 1];
      OpenGroupsAre(rest, p);
      if Offers(g, p) { UnarchivedOneMore(GroupsFor(rest, p), g); } else { assert GroupsFor(rest, p) + [] == GroupsFor(rest, p); }
      assert OpenGroups(rest, p) + [] == OpenGroups(rest, p);
    }
  }

  lemma {:induction false} OpenGroupHas(groups: seq<Group>, p: Person, id: string)
    ensures HasGroup(OpenGroups(groups, p), id) <==> exists i :: 0 <= i < |groups| && groups[i].id == id && Takes(groups[i], p)
  {
    if groups != [] {
      var n := |groups| - 1;
      OpenGroupHas(groups[..n], p, id);
      HasGroupConcat(OpenGroups(groups[..n], p), if Takes(groups[n], p) then [groups[n]] else [], id);
      if exists i :: 0 <= i < n && groups[..n][i].id == id && Takes(groups[..n][i], p) {
        var i :| 0 <= i < n && groups[..n][i].id == id && Takes(groups[..n][i], p);
        assert groups[i].id == id && Takes(groups[i], p);
      }
      if exists i :: 0 <= i < |groups| && groups[i].id == id && Takes(groups[i], p) {
        var i :| 0 <= i < |groups| && groups[i].id == id && Takes(groups[i], p);
        if i < n { assert groups[..n][i].id == id && Takes(groups[..n][i], p); }
      }
      if Takes(groups[n], p) { assert [groups[n]][0] == groups[n]; }
    }
  }

  /** The group of a new thread: none outside group mode. In group mode a requested one that takes
      comments of the person, or for who is no manager the only one that does. */
  ghost predicate StartsIn(config: Config, p: Person, requested: Option<string>, group: Option<string>) {
    if config.mode != Grouped then requested == None && group == None
    else
      && group.Some? && GroupIsOpen(config, p, group.value)
      && if requested.Some? then group == requested
         else !p.manager && |OpenGroups(config.groups, p)| == 1 && OpenGroups(config.groups, p)[0].id == group.value
  }

  lemma GroupIsChosen(config: Config, p: Person, requested: Option<string>, group: Option<string>)
    ensures SelectGroup(config.mode, ActorFor(config, p), requested) == Some(group) <==> StartsIn(config, p, requested, group)
  {
    OpenGroupsAre(config.groups, p);
    if group.Some? { OpenGroupHas(config.groups, p, group.value); }
    if requested.Some? { OpenGroupHas(config.groups, p, requested.value); }
    if |OpenGroups(config.groups, p)| == 1 { OpenGroupHas(config.groups, p, OpenGroups(config.groups, p)[0].id); }
  }

  /** A comment that the person may answer with a comment on the target. */
  ghost predicate MayAnswer(s: State, p: Person, id: string, requested: Option<string>, target: Target) {
    && id in s.comments
    && var c := s.comments[id];
       && !c.deleted && Matches(c, target) && CanView(s.config.mode, ActorFor(s.config, p), c)
       && (requested.Some? ==> requested == c.group)
       && (c.group.Some? ==> !ArchivedIn(GroupsFor(s.config.groups, p), c.group.value))
  }

  /** Where a new comment belongs: a thread of its own, or that of the comment it answers, whose group
      it has; threads have one level. */
  ghost predicate Belongs(s: State, p: Person, d: Draft, parent: Option<string>, group: Option<string>) {
    match d.parent
    case None => parent == None && StartsIn(s.config, p, d.group, group)
    case Some(id) =>
      && d.target.Some? && MayAnswer(s, p, id, d.group, d.target.value)
      && parent == Some(OrElseId(s.comments[id].parent, id)) && group == s.comments[id].group
  }

  function OrElseId(parent: Option<string>, id: string): string { if parent.Some? then parent.value else id }

  lemma ThreadIsFound(s: State, p: Person, d: Draft, parent: Option<string>, group: Option<string>)
    requires d.target.Some?
    ensures ThreadFor(s, p, d, d.target.value) == Ok((parent, group)) <==> Belongs(s, p, d, parent, group)
  {
    if d.parent == None { GroupIsChosen(s.config, p, d.group, group); }
  }

  /** The comment that a draft becomes. */
  ghost predicate IsDraft(s: State, p: Person, d: Draft, c: Comment) {
    && d.target.Some?
    && var t := d.target.value;
       && c.id == d.newId && c.userId == p.userId && c.credentialId == p.credentialId
       && c.targetType == t.targetType && c.targetId == t.targetId && c.bookletId == t.bookletId && c.unitId == t.unitId && c.itemId == t.itemId
       && c.text == Trim(d.text) && c.category == (if d.category.Some? then d.category.value else None)
       && c.version == 1 && !c.deleted && !c.legacy && c.createdAt == d.at && c.updatedAt == d.at
       && Belongs(s, p, d, c.parent, c.group)
  }

  ghost predicate HasPlaceFor(s: State, p: Person, d: Draft) { exists parent, group :: Belongs(s, p, d, parent, group) }

  /** A comment is created exactly on a known target where the person may comment, in a thread that takes
      it, with an acceptable text and category; it is then the comment that was written, and everything
      else stays. */
  lemma CreationsAreExact(s: State, e: Event)
    requires e.Create?
    ensures Attempt(s, e).Ok? <==>
      && e.draft.target.Some? && MayComment(s.config, e.p, e.draft.target.value.targetType) && HasPlaceFor(s, e.p, e.draft)
      && CategoryIsAcceptable(s.config, e.draft.category, None) && TextIsAcceptable(e.draft.text) && e.draft.newId !in s.comments
    ensures Attempt(s, e).Ok? ==>
      var id, s' := e.draft.newId, Step(s, e);
      && s'.config == s.config && s'.comments.Keys == s.comments.Keys + {id}
      && (forall k :: k in s.comments ==> s'.comments[k] == s.comments[k])
      && IsDraft(s, e.p, e.draft, s'.comments[id])
  {
    var d := e.draft;
    CategoryIsChosen(s.config, e.p, d.category, None);
    if d.target.Some? {
      var found := ThreadFor(s, e.p, d, d.target.value);
      if found.Ok? { ThreadIsFound(s, e.p, d, found.value.0, found.value.1); }
      if HasPlaceFor(s, e.p, d) {
        var parent, group :| Belongs(s, e.p, d, parent, group);
        ThreadIsFound(s, e.p, d, parent, group);
      }
    }
  }

  // ----------------------------------------------------------------------- configurations

  /** The id that entry `i` asks for or is given. */
  function IdAt(env: Env, id: Option<string>, i: nat): string { if id.Some? then id.value else env.freshId(i) }

  lemma {:induction false} MembersAre(env: Env, previous: seq<Member>, members: seq<Member>, m: Member)
    ensures MembersFrom(env, previous, members).Ok? <==> forall x :: x in members ==> env.known(x) || x in previous
    ensures MembersFrom(env, previous, members).Ok? ==>
      (m in MembersFrom(env, previous, members).value <==> m in members && env.known(m))
  {
    if members != [] {
      var rest, last := members[..|members| - 1], members[|members| - 1];
      MembersAre(env, previous, rest, m);
      assert members == rest + [last];
    }
  }

  /** A group that an entry may ask for: it has a name, is there if it is asked for by its id, and its
      members are known now or were members before. */
  ghost predicate GroupIsFine(env: Env, previous: seq<Group>, dto: GroupDto, i: nat) {
    && Trim(dto.name) != "" && (dto.id.Some? ==> HasGroup(previous, dto.id.value))
    && forall m :: m in dto.members ==> env.known(m) || m in FindMembers(previous, IdAt(env, dto.id, i))
  }

  ghost predicate GroupsAreFine(env: Env, previous: seq<Group>, dtos: seq<GroupDto>) {
    && (forall i :: 0 <= i < |dtos| ==> GroupIsFine(env, previous, dtos[i], i))
    && forall i, j :: 0 <= i < j < |dtos| ==> IdAt(env, dtos[i].id, i) != IdAt(env, dtos[j].id, j)
  }

  /** The group that is made of an entry has those of its members that are known. */
  ghost predicate IsMadeOf(env: Env, g: Group, dto: GroupDto, i: nat) {
    && g.id == IdAt(env, dto.id, i) && g.name == Trim(dto.name) && g.archived == dto.archived
    && forall m :: m in g.members <==> m in dto.members && env.known(m)
  }

  ghost predicate AreMadeOf(env: Env, groups: seq<Group>, dtos: seq<GroupDto>) {
    |groups| == |dtos| && forall i :: 0 <= i < |dtos| ==> IsMadeOf(env, groups[i], dtos[i], i)
  }

  lemma OneGroup(env: Env, previous: seq<Group>, rest: seq<Group>, dto: GroupDto, n: nat)
    ensures var r := GroupFrom(env, previous, rest, dto, n);
      && (r.Ok? <==> GroupIsFine(env, previous, dto, n) && !HasGroup(rest, IdAt(env, dto.id, n)))
      && (r.Ok? ==> |r.value| == |rest| + 1 && r.value[..|rest|] == rest && IsMadeOf(env, r.value[|rest|], dto, n))
  {
    var before := FindMembers(previous, IdAt(env, dto.id, n));
    forall m ensures MembersFrom(env, before, dto.members).Ok? ==> (m in MembersFrom(env, before, dto.members).value <==> m in dto.members && env.known(m)) {
      MembersAre(env, before, dto.members, m);
    }
    MembersAre(env, before, dto.members, Member(User, ""));
  }

  lemma TakenGroupId(env: Env, groups: seq<Group>, dtos: seq<GroupDto>, id: string)
    requires AreMadeOf(env, groups, dtos)
    ensures HasGroup(groups, id) <==> exists i :: 0 <= i < |dtos| && IdAt(env, dtos[i].id, i) == id
  {
    forall i | 0 <= i < |dtos| ensures groups[i].id == IdAt(env, dtos[i].id, i) { assert IsMadeOf(env, groups[i], dtos[i], i); }
    if HasGroup(groups, id) {
      var i :| 0 <= i < |groups| && groups[i].id == id;
      assert IdAt(env, dtos[i].id, i) == id;
    }
  }

  lemma FineOneMore(env: Env, previous: seq<Group>, dtos: seq<GroupDto>)
    requires dtos != []
    ensures var n := |dtos| - 1;
      GroupsAreFine(env, previous, dtos) <==>
        && GroupsAreFine(env, previous, dtos[..n]) && GroupIsFine(env, previous, dtos[n], n)
        && !exists i :: 0 <= i < n && IdAt(env, dtos[..n][i].id, i) == IdAt(env, dtos[n].id, n)
  {
    var n := |dtos| - 1;
    assert forall i :: 0 <= i < n ==> dtos[..n][i] == dtos[i];
  }

  lemma {:induction false} GroupsAre(env: Env, previous: seq<Group>, dtos: seq<GroupDto>)
    ensures var r := GroupsFrom(env, previous, dtos);
      (r.Ok? <==> GroupsAreFine(env, previous, dtos)) && (r.Ok? ==> AreMadeOf(env, r.value, dtos))
  {
    if dtos != [] {
      var n := |dtos| - 1;
      var r := GroupsFrom(env, previous, dtos[..n]);
      GroupsAre(env, previous, dtos[..n]);
      FineOneMore(env, previous, dtos);
      if r.Ok? {
        OneGroup(env, previous, r.value, dtos[n], n);
        TakenGroupId(env, r.value, dtos[..n], IdAt(env, dtos[n].id, n));
        if GroupsFrom(env, previous, dtos).Ok? { MadeOneMore(env, r.value, dtos, GroupsFrom(env, previous, dtos).value); }
      }
    }
  }

  lemma MadeOneMore(env: Env, rest: seq<Group>, dtos: seq<GroupDto>, groups: seq<Group>)
    requires dtos != [] && AreMadeOf(env, rest, dtos[..|dtos| - 1])
    requires |groups| == |rest| + 1 && groups[..|rest|] == rest && IsMadeOf(env, groups[|rest|], dtos[|dtos| - 1], |dtos| - 1)
    ensures AreMadeOf(env, groups, dtos)
  {
    forall i | 0 <= i < |dtos| ensures IsMadeOf(env, groups[i], dtos[i], i) {
      if i < |rest| {
        assert groups[i] == groups[..|rest|][i] && dtos[i] == dtos[..|dtos| - 1][i];
        assert IsMadeOf(env, rest[i], dtos[..|dtos| - 1][i], i);
      }
    }
  }

  ghost predicate CategoryIsFine(previous: seq<Category>, dto: CategoryDto) {
    Trim(dto.name) != "" && (dto.id.Some? ==> HasCategory(previous, dto.id.value))
  }

  /** Two entries have neither the same id nor, but for upper and lower case, the same name. */
  ghost predicate CategoriesDiffer(env: Env, dtos: seq<CategoryDto>, i: int, j: int)
    requires 0 <= i < |dtos| && 0 <= j < |dtos|
  {
    IdAt(env, dtos[i].id, i) != IdAt(env, dtos[j].id, j) && env.lower(Trim(dtos[i].name)) != env.lower(Trim(dtos[j].name))
  }

  ghost predicate CategoriesAreFine(env: Env, previous: seq<Category>, dtos: seq<CategoryDto>) {
    && (forall i :: 0 <= i < |dtos| ==> CategoryIsFine(previous, dtos[i]))
    && forall i, j :: 0 <= i < j < |dtos| ==> CategoriesDiffer(env, dtos, i, j)
  }

  ghost predicate CategoriesMadeOf(env: Env, categories: seq<Category>, dtos: seq<CategoryDto>) {
    && |categories| == |dtos|
    && forall i :: 0 <= i < |dtos| ==> categories[i] == Category(IdAt(env, dtos[i].id, i), Trim(dtos[i].name), dtos[i].archived)
  }

  lemma TakenCategory(env: Env, categories: seq<Category>, dtos: seq<CategoryDto>, dto: CategoryDto, n: nat)
    requires CategoriesMadeOf(env, categories, dtos) && n == |dtos|
    ensures HasCategory(categories, IdAt(env, dto.id, n)) || HasName(env, categories, env.lower(Trim(dto.name)))
       <==> exists i :: 0 <= i < n && !CategoriesDiffer(env, dtos + [dto], i, n)
  {
    var all := dtos + [dto];
    forall i | 0 <= i < n
      ensures !CategoriesDiffer(env, all, i, n) <==> categories[i].id == IdAt(env, dto.id, n) || env.lower(categories[i].name) == env.lower(Trim(dto.name))
    {
      assert all[i] == dtos[i] && all[n] == dto;
    }
    if HasCategory(categories, IdAt(env, dto.id, n)) {
      var i :| 0 <= i < n && categories[i].id == IdAt(env, dto.id, n);
      assert !CategoriesDiffer(env, all, i, n);
    }
    if HasName(env, categories, env.lower(Trim(dto.name))) {
      var i :| 0 <= i < n && env.lower(categories[i].name) == env.lower(Trim(dto.name));
      assert !CategoriesDiffer(env, all, i, n);
    }
  }

  lemma CategoriesFineOneMore(env: Env, previous: seq<Category>, dtos: seq<CategoryDto>)
    requires dtos != []
    ensures var n := |dtos| - 1;
      CategoriesAreFine(env, previous, dtos) <==>
        && CategoriesAreFine(env, previous, dtos[..n]) && CategoryIsFine(previous, dtos[n])
        && !exists i :: 0 <= i < n && !CategoriesDiffer(env, dtos, i, n)
  {
    var n := |dtos| - 1;
    assert forall i :: 0 <= i < n ==> dtos[..n][i] == dtos[i];
    forall i, j | 0 <= i < j < n ensures CategoriesDiffer(env, dtos[..n], i, j) <==> CategoriesDiffer(env, dtos, i, j) { }
  }

  lemma {:induction false} CategoriesAre(env: Env, previous: seq<Category>, dtos: seq<CategoryDto>)
    ensures var r := CategoriesFrom(env, previous, dtos);
      (r.Ok? <==> CategoriesAreFine(env, previous, dtos)) && (r.Ok? ==> CategoriesMadeOf(env, r.value, dtos))
  {
    if dtos != [] {
      var n := |dtos| - 1;
      var r := CategoriesFrom(env, previous, dtos[..n]);
      CategoriesAre(env, previous, dtos[..n]);
      CategoriesFineOneMore(env, previous, dtos);
      assert dtos == dtos[..n] + [dtos[n]];
      if r.Ok? { TakenCategory(env, r.value, dtos[..n], dtos[n], n); }
    }
  }

  /** The groups that a request asks for, or those there are; a group that is there and missing from them
      must be named for deletion and not be used by any comment. */
  ghost predicate GroupsAreAcceptable(env: Env, s: State, dto: ConfigDto, next: seq<Group>) {
    match dto.groups
    case None => next == s.config.groups
    case Some(dtos) => GroupsAreFine(env, s.config.groups, dtos) && AreMadeOf(env, next, dtos) && MayDropGroups(s, dto, next)
  }

  ghost predicate CategoriesAreAcceptable(env: Env, s: State, dto: ConfigDto, next: seq<Category>) {
    match dto.categories
    case None => next == s.config.categories
    case Some(dtos) => CategoriesAreFine(env, s.config.categories, dtos) && CategoriesMadeOf(env, next, dtos) && MayDropCategories(s, dto, next)
  }

  lemma NextGroupsAre(env: Env, s: State, dto: ConfigDto)
    ensures NextGroups(env, s, dto).Ok? ==> GroupsAreAcceptable(env, s, dto, NextGroups(env, s, dto).value)
    ensures NextGroups(env, s, dto).Err? ==> forall next :: !GroupsAreAcceptable(env, s, dto, next)
  {
    if dto.groups.Some? {
      GroupsAre(env, s.config.groups, dto.groups.value);
      var r := GroupsFrom(env, s.config.groups, dto.groups.value);
      if r.Ok? {
        forall next | AreMadeOf(env, next, dto.groups.value) ensures MayDropGroups(s, dto, next) == MayDropGroups(s, dto, r.value) {
          SameGroupIds(env, s, dto, r.value, next);
        }
      }
    }
  }

  lemma SameGroupIds(env: Env, s: State, dto: ConfigDto, a: seq<Group>, b: seq<Group>)
    requires dto.groups.Some? && AreMadeOf(env, a, dto.groups.value) && AreMadeOf(env, b, dto.groups.value)
    ensures MayDropGroups(s, dto, a) == MayDropGroups(s, dto, b)
  {
    forall id ensures HasGroup(a, id) <==> HasGroup(b, id) {
      TakenGroupId(env, a, dto.groups.value, id);
      TakenGroupId(env, b, dto.groups.value, id);
    }
  }

  lemma NextCategoriesAre(env: Env, s: State, dto: ConfigDto)
    ensures NextCategories(env, s, dto).Ok? ==> CategoriesAreAcceptable(env, s, dto, NextCategories(env, s, dto).value)
    ensures NextCategories(env, s, dto).Err? ==> forall next :: !CategoriesAreAcceptable(env, s, dto, next)
  {
    if dto.categories.Some? {
      CategoriesAre(env, s.config.categories, dto.categories.value);
      var r := CategoriesFrom(env, s.config.categories, dto.categories.value);
      if r.Ok? {
        forall next | CategoriesMadeOf(env, next, dto.categories.value) ensures next == r.value { }
      }
    }
  }

  /** A configuration is accepted exactly if the review is ready when it is switched on, the version is
      the current one, comments are not shared unconfirmed, and its groups and categories are acceptable. */
  ghost predicate ConfigIsAcceptable(env: Env, s: State, dto: ConfigDto) {
    && (dto.enableReview && !s.config.reviewEnabled ==> env.ready)
    && dto.version == s.config.version
    && (dto.mode == Shared && s.config.mode != Shared ==> dto.confirmed)
    && (exists groups :: GroupsAreAcceptable(env, s, dto, groups))
    && exists categories :: CategoriesAreAcceptable(env, s, dto, categories)
  }

  lemma ConfigIsMade(env: Env, s: State, dto: ConfigDto, groups: seq<Group>, categories: seq<Category>)
    requires NextGroups(env, s, dto) == Ok(groups) && NextCategories(env, s, dto) == Ok(categories)
    ensures Configured(env, s, dto).Ok? <==>
      && (dto.enableReview && !s.config.reviewEnabled ==> env.ready) && dto.version == s.config.version
      && (dto.mode == Shared && s.config.mode != Shared ==> dto.confirmed)
    ensures Configured(env, s, dto).Ok? ==>
      var c, c' := s.config, Configured(env, s, dto).value.config;
      && c'.groups == groups && c'.categories == categories && c'.mode == dto.mode && c'.reviewEnabled == dto.enableReview
      && c'.version == c.version + 1 && c'.revision == c.revision + 1
      && c'.ungroupedMode == (if dto.mode == Grouped && c.mode != Grouped then c.mode else c.ungroupedMode)
      && c'.commentingEnabled == c.commentingEnabled && c'.targets == c.targets
      && Configured(env, s, dto).value.comments == s.comments
  {
  }

  /** An accepted configuration sets what it asks for and raises the version; comments without a group are
      shown in group mode as they were before it, and the settings of access and all comments stay. */
  lemma ConfigurationsAreExact(s: State, e: Event)
    requires e.Configure?
    ensures Attempt(s, e).Ok? <==> ConfigIsAcceptable(e.env, s, e.dto)
    ensures Attempt(s, e).Ok? ==>
      var c, c' := s.config, Step(s, e).config;
      && GroupsAreAcceptable(e.env, s, e.dto, c'.groups) && CategoriesAreAcceptable(e.env, s, e.dto, c'.categories)
      && c'.mode == e.dto.mode && c'.reviewEnabled == e.dto.enableReview
      && c'.version == c.version + 1 && c'.revision == c.revision + 1
      && c'.ungroupedMode == (if e.dto.mode == Grouped && c.mode != Grouped then c.mode else c.ungroupedMode)
      && c'.commentingEnabled == c.commentingEnabled && c'.targets == c.targets
      && Step(s, e).comments == s.comments
  {
    NextGroupsAre(e.env, s, e.dto);
    NextCategoriesAre(e.env, s, e.dto);
    var groups, categories := NextGroups(e.env, s, e.dto), NextCategories(e.env, s, e.dto);
    if groups.Ok? && categories.Ok? { ConfigIsMade(e.env, s, e.dto, groups.value, categories.value); }
  }
}
