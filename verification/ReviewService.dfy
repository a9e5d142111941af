/** The operations of `ReviewWorkspace` as the services carry them out, in place: backend/src/comments/comments.service.ts
    and the `configure` of backend/src/review/review.controller.ts. */
module ReviewService {
  import opened Outcomes
  import opened ReviewPolicy
  import opened ReviewWorkspace
  import opened Text

  method ReadMembers(env: Env, previous: seq<Member>, members: seq<Member>) returns (r: Result<seq<Member>, Refusal>)
    ensures r == MembersFrom(env, previous, members)
  {
    var kept := [];
    for i := 0 to |members|
      invariant MembersFrom(env, previous, members[..i]) == Ok(kept)
    {
      assert members[..i + 1][..i] == members[..i];
      if !env.known(members[i]) {
        if members[i] in previous { continue; }
        RefusedMember(env, previous, members, i + 1);
        return Err(NotAMember);
      }
      kept := kept + [members[i]];
    }
    assert members[..|members|] == members;
    return Ok(kept);
  }

  lemma {:induction false} RefusedMember(env: Env, previous: seq<Member>, members: seq<Member>, i: nat)
    requires i <= |members| && MembersFrom(env, previous, members[..i]).Err?
    ensures MembersFrom(env, previous, members) == MembersFrom(env, previous, members[..i])
    decreases |members| - i
  {
    if i < |members| {
      assert members[..i + 1][..i] == members[..i];
      RefusedMember(env, previous, members, i + 1);
    } else {
      assert members[..i] == members;
    }
  }

  lemma {:induction false} RefusedGroup(env: Env, previous: seq<Group>, dtos: seq<GroupDto>, i: nat)
    requires i <= |dtos| && GroupsFrom(env, previous, dtos[..i]).Err?
    ensures GroupsFrom(env, previous, dtos) == GroupsFrom(env, previous, dtos[..i])
    decreases |dtos| - i
  {
    if i < |dtos| {
      assert dtos[..i + 1][..i] == dtos[..i];
      RefusedGroup(env, previous, dtos, i + 1);
    } else {
      assert dtos[..i] == dtos;
    }
  }

  lemma {:induction false} RefusedCategory(env: Env, previous: seq<Category>, dtos: seq<CategoryDto>, i: nat)
    requires i <= |dtos| && CategoriesFrom(env, previous, dtos[..i]).Err?
    ensures CategoriesFrom(env, previous, dtos) == CategoriesFrom(env, previous, dtos[..i])
    decreases |dtos| - i
  {
    if i < |dtos| {
      assert dtos[..i + 1][..i] == dtos[..i];
      RefusedCategory(env, previous, dtos, i + 1);
    } else {
      assert dtos[..i] == dtos;
    }
  }

  method ReadGroup(env: Env, previous: seq<Group>, next: seq<Group>, group: GroupDto, position: nat) returns (r: Result<seq<Group>, Refusal>)
    ensures r == GroupFrom(env, previous, next, group, position)
  {
    var name := Trim(group.name);
    if name == "" { return Err(NameMissing); }
    if group.id.Some? && !HasGroup(previous, group.id.value) { return Err(UnknownEntry); }
    var id := if group.id.Some? then group.id.value else env.freshId(position);
    if HasGroup(next, id) { return Err(DoubledEntry); }
    var members := ReadMembers(env, FindMembers(previous, id), group.members);
    if members.Err? { return Err(members.error); }
    return Ok(next + [Group(id, name, group.archived, members.value)]);
  }

  method ReadGroups(env: Env, previous: seq<Group>, groups: seq<GroupDto>) returns (r: Result<seq<Group>, Refusal>)
    ensures r == GroupsFrom(env, previous, groups)
  {
    var next := [];
    for i := 0 to |groups|
      invariant GroupsFrom(env, previous, groups[..i]) == Ok(next)
    {
      assert groups[..i + 1][..i] == groups[..i];
      var one := ReadGroup(env, previous, next, groups[i], i);
      if one.Err? {
        RefusedGroup(env, previous, groups, i + 1);
        return Err(one.error);
      }
      next := one.value;
    }
    assert groups[..|groups|] == groups;
    return Ok(next);
  }

  method ReadCategories(env: Env, previous: seq<Category>, categories: seq<CategoryDto>) returns (r: Result<seq<Category>, Refusal>)
    ensures r == CategoriesFrom(env, previous, categories)
  {
    var next := [];
    for i := 0 to |categories|
      invariant CategoriesFrom(env, previous, categories[..i]) == Ok(next)
    {
      assert categories[..i + 1][..i] == categories[..i];
      var one := CategoryFrom(env, previous, next, categories[i], i);
      if one.Err? {
        RefusedCategory(env, previous, categories, i + 1);
        return Err(one.error);
      }
      next := one.value;
    }
    assert categories[..|categories|] == categories;
    return Ok(next);
  }

  lemma ConfigureStep(env: Env, s: State, dto: ConfigDto)
    ensures Step(s, Event.Configure(env, dto)) == if Configured(env, s, dto).Ok? then Configured(env, s, dto).value else s
  {
  }

  class ReviewService {
    var config: Config
    var comments: map<string, Comment>

    ghost function Now(): State reads this { State(config, comments) }

    constructor (config: Config, comments: map<string, Comment>)
      ensures Now() == State(config, comments)
    {
      this.config, this.comments := config, comments;
    }

    /** `findMutableComment` and the access check behind it. */
    method FindMutableComment(p: Person, commentId: string) returns (r: Result<Comment, Refusal>)
      ensures r == Mutable(Now(), p, commentId)
    {
      if commentId !in comments { return Err(NotFound); }
      var comment := comments[commentId];
      if comment.deleted || !CanView(config.mode, ActorFor(config, p), comment) { return Err(NotFound); }
      if comment.targetType == TaskSequence || comment.legacy { return Err(Forbidden); }
      if !OwnedBy(comment, p) { return Err(Forbidden); }
      if !MayComment(config, p, comment.targetType) { return Err(Forbidden); }
      return Ok(comment);
    }

    method CreateReviewComment(p: Person, d: Draft) returns (r: Result<Comment, Refusal>)
      modifies this`comments
      ensures Now() == Step(old(Now()), Create(p, d))
      ensures r == match Created(old(Now()), p, d) { case Err(e) => Err(e) case Ok(s) => Ok(s.comments[d.newId]) }
    {
      if d.target == None { return Err(BadTarget); }
      var target := d.target.value;
      if !MayComment(config, p, target.targetType) { return Err(Forbidden); }
      var thread := ThreadFor(State(config, comments), p, d, target);
      if thread.Err? { return Err(thread.error); }
      var category := SelectCategory(ActorFor(config, p), d.category, None);
      if category == None { return Err(BadCategory); }
      var text := CommentText(d.text);
      if text == None { return Err(BadText); }
      if d.newId in comments { return Err(IdTaken); }
      var comment := Comment(d.newId, p.userId, p.credentialId, target.targetType, target.targetId, target.bookletId, target.unitId, target.itemId,
                             thread.value.0, thread.value.1, category.value, text.value, 1, false, false, d.at, d.at);
      comments := comments[d.newId := comment];
      return Ok(comment);
    }

    method UpdateOwnComment(p: Person, commentId: string, commentText: string, version: nat, category: Option<Option<string>>, known: bool, at: nat)
      returns (refusal: Option<Refusal>)
      modifies this`comments
      ensures Now() == Step(old(Now()), Edit(p, commentId, commentText, version, category, known, at))
      ensures refusal == None <==> Edited(old(Now()), p, commentId, commentText, version, category, known, at).Ok?
    {
      var current := FindMutableComment(p, commentId);
      if current.Err? { return Some(current.error); }
      var text := CommentText(commentText);
      if text == None { return Some(BadText); }
      if current.value.version != version { return Some(Conflict); }
      if !known { return Some(BadTarget); }
      var selected := SelectCategory(ActorFor(config, p), category, current.value.category);
      if selected == None { return Some(BadCategory); }
      comments := comments[commentId := current.value.(category := selected.value, text := text.value, updatedAt := at, version := version + 1)];
      return None;
    }

    method DeleteOwnComment(p: Person, commentId: string, version: nat, known: bool, at: nat) returns (refusal: Option<Refusal>)
      modifies this`comments
      ensures Now() == Step(old(Now()), Delete(p, commentId, version, known, at))
      ensures refusal == None <==> Erased(old(Now()), p, commentId, version, known, at).Ok?
    {
      var current := FindMutableComment(p, commentId);
      if current.Err? { return Some(current.error); }
      if current.value.version != version { return Some(Conflict); }
      if !known { return Some(BadTarget); }
      comments := comments[commentId := current.value.(text := "", deleted := true, updatedAt := at, version := version + 1)];
      return None;
    }

    method DeleteUnreferencedLegacy()
      modifies this`comments
      ensures Now() == Step(old(Now()), PurgeLegacy)
    {
      comments := map id | id in comments && !Purged(comments, id) :: comments[id];
    }

    method NextGroupsOf(env: Env, dto: ConfigDto) returns (r: Result<seq<Group>, Refusal>)
      ensures r == NextGroups(env, Now(), dto)
    {
      if dto.groups == None { return Ok(config.groups); }
      r := ReadGroups(env, config.groups, dto.groups.value);
      if r.Ok? && !MayDropGroups(State(config, comments), dto, r.value) { return Err(StillUsed); }
    }

    method NextCategoriesOf(env: Env, dto: ConfigDto) returns (r: Result<seq<Category>, Refusal>)
      ensures r == NextCategories(env, Now(), dto)
    {
      if dto.categories == None { return Ok(config.categories); }
      r := ReadCategories(env, config.categories, dto.categories.value);
      if r.Ok? && !MayDropCategories(State(config, comments), dto, r.value) { return Err(StillUsed); }
    }

    /** The checks of `configure`, and the groups and categories to be. */
    method Admit(env: Env, dto: ConfigDto) returns (r: Result<(seq<Group>, seq<Category>), Refusal>)
      ensures r.Err? ==> Configured(env, Now(), dto) == Err(r.error)
      ensures r.Ok? ==> Configured(env, Now(), dto).Ok?
      ensures r.Ok? ==> NextGroups(env, Now(), dto) == Ok(r.value.0) && NextCategories(env, Now(), dto) == Ok(r.value.1)
    {
      if dto.enableReview && !config.reviewEnabled && !env.ready { return Err(NotReady); }
      if config.version != dto.version { return Err(Conflict); }
      if dto.mode == Shared && config.mode != Shared && !dto.confirmed { return Err(NotConfirmed); }
      var groups := NextGroupsOf(env, dto);
      if groups.Err? { return Err(groups.error); }
      var categories := NextCategoriesOf(env, dto);
      if categories.Err? { return Err(categories.error); }
      return Ok((groups.value, categories.value));
    }

    method Configure(env: Env, dto: ConfigDto) returns (refusal: Option<Refusal>)
      modifies this`config
      ensures Now() == Step(old(Now()), Event.Configure(env, dto))
      ensures refusal == None <==> Configured(env, old(Now()), dto).Ok?
    {
      ConfigureStep(env, Now(), dto);
      var next := Admit(env, dto);
      if next.Err? { return Some(next.error); }
      var previousMode := config.mode;
      config := config.(groups := next.value.0, categories := next.value.1);
      if dto.mode == Grouped && previousMode != Grouped { config := config.(ungroupedMode := previousMode); }
      config := config.(reviewEnabled := dto.enableReview, mode := dto.mode);
      config := config.(version := config.version + 1, revision := config.revision + 1);
      return None;
    }

    method UpdateAccess(commentingEnabled: bool, targets: seq<TargetType>)
      modifies this`config
      ensures Now() == Step(old(Now()), Event.UpdateAccess(commentingEnabled, targets))
    {
      config := config.(commentingEnabled := commentingEnabled, targets := targets);
    }
  }
}
