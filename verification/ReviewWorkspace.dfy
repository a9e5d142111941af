/** backend/src/comments/comments.service.ts, backend/src/review/review.controller.ts and
    backend/src/acp/acp.service.ts: the comments of one ACP and its review configuration, which two
    modules change under one lock. Every operation is one atomic step. */
module ReviewWorkspace {
  import opened Outcomes
  import opened ReviewPolicy
  import opened Text

  datatype State = State(config: Config, comments: map<string, Comment>)

  datatype Refusal =
    | Forbidden | NotFound | BadTarget | BadGroup | BadCategory | BadText | Conflict | IdTaken
    | NotReady | NotConfirmed | NameMissing | UnknownEntry | DoubledEntry | NotAMember | StillUsed

  // --------------------------------------------------------------------------- comments

  /** A target that the catalogues know. */
  datatype Target = Target(targetType: TargetType, targetId: string, bookletId: Option<string>, unitId: Option<string>, itemId: Option<string>,
                           legacyIds: seq<string>)

  function OrElse(a: Option<string>, b: string): string { if a.Some? && a.value != "" then a.value else b }

  /** `matchesTarget` */
  predicate Matches(c: Comment, t: Target) {
    c.targetType == t.targetType &&
    match t.targetType
    case Booklet => Some(OrElse(c.bookletId, c.targetId)) == t.bookletId
    case Unit => Some(OrElse(c.unitId, c.targetId)) == t.unitId
    case ItemTarget =>
      t.unitId.Some? && t.itemId.Some? &&
      if c.unitId.Some? || c.itemId.Some? then c.unitId == t.unitId && c.itemId == t.itemId else c.targetId in t.legacyIds
    case _ => c.unitId == t.unitId && c.itemId == t.itemId
  }

  /** `normalizeCommentText` */
  function CommentText(raw: string): Option<string> {
    if Trim(raw) == "" || |Trim(raw)| > 10000 then None else Some(Trim(raw))
  }

  datatype Draft = Draft(newId: string, target: Option<Target>, text: string, parent: Option<string>, group: Option<string>,
                         category: Option<Option<string>>, at: nat)

  predicate ArchivedIn(groups: seq<Group>, id: string) { exists i :: 0 <= i < |groups| && groups[i].id == id && groups[i].archived }

  /** The root and the group of a new comment. */
  function ThreadFor(s: State, p: Person, d: Draft, target: Target): Result<(Option<string>, Option<string>), Refusal> {
    var actor := ActorFor(s.config, p);
    match d.parent
    case None =>
      (match SelectGroup(s.config.mode, actor, d.group)
       case None => Err(BadGroup)
       case Some(g) => Ok((None, g)))
    case Some(parentId) =>
      if parentId !in s.comments then Err(NotFound)
      else
        var parent := s.comments[parentId];
        if parent.deleted || !Matches(parent, target) || !CanView(s.config.mode, actor, parent) then Err(NotFound)
        else if d.group.Some? && d.group != parent.group then Err(BadGroup)
        else if parent.group.Some? && ArchivedIn(actor.groups, parent.group.value) then Err(BadGroup)
        else Ok((Some(if parent.parent.Some? then parent.parent.value else parentId), parent.group))
  }

  /** `createReviewComment` */
  function Created(s: State, p: Person, d: Draft): Result<State, Refusal> {
    if d.target == None then Err(BadTarget)
    else
      var t := d.target.value;
      if !MayComment(s.config, p, t.targetType) then Err(Forbidden)
      else
        match ThreadFor(s, p, d, t)
        case Err(e) => Err(e)
        case Ok((parent, group)) =>
          match SelectCategory(ActorFor(s.config, p), d.category, None)
          case None => Err(BadCategory)
          case Some(category) =>
            match CommentText(d.text)
            case None => Err(BadText)
            case Some(text) =>
              if d.newId in s.comments then Err(IdTaken)
              else
                Ok(s.(comments := s.comments[d.newId :=
                  Comment(d.newId, p.userId, p.credentialId, t.targetType, t.targetId, t.bookletId, t.unitId, t.itemId,
                          parent, group, category, text, 1, false, false, d.at, d.at)]))
  }

  /** `findMutableComment` and the access check behind it. */
  function Mutable(s: State, p: Person, id: string): Result<Comment, Refusal> {
    if id !in s.comments then Err(NotFound)
    else
      var c := s.comments[id];
      if c.deleted || !CanView(s.config.mode, ActorFor(s.config, p), c) then Err(NotFound)
      else if c.targetType == TaskSequence || c.legacy || !OwnedBy(c, p) then Err(Forbidden)
      else if !MayComment(s.config, p, c.targetType) then Err(Forbidden)
      else Ok(c)
  }

  /** `updateOwnComment`; `known`: the catalogues still know its target. */
  function Edited(s: State, p: Person, id: string, text: string, version: nat, category: Option<Option<string>>, known: bool, at: nat): Result<State, Refusal> {
    match Mutable(s, p, id)
    case Err(e) => Err(e)
    case Ok(c) =>
      if CommentText(text) == None then Err(BadText)
      else if c.version != version then Err(Conflict)
      else if !known then Err(BadTarget)
      else
        match SelectCategory(ActorFor(s.config, p), category, c.category)
        case None => Err(BadCategory)
        case Some(chosen) =>
          Ok(s.(comments := s.comments[id := c.(category := chosen, text := CommentText(text).value, updatedAt := at, version := version + 1)]))
  }

  /** `deleteOwnComment` */
  function Erased(s: State, p: Person, id: string, version: nat, known: bool, at: nat): Result<State, Refusal> {
    match Mutable(s, p, id)
    case Err(e) => Err(e)
    case Ok(c) =>
      if c.version != version then Err(Conflict)
      else if !known then Err(BadTarget)
      else Ok(s.(comments := s.comments[id := c.(text := "", deleted := true, updatedAt := at, version := version + 1)]))
  }

  predicate HasChild(comments: map<string, Comment>, id: string) { exists k :: k in comments && comments[k].parent == Some(id) }

  /** `deleteUnreferencedLegacyByAcp` */
  predicate Purged(comments: map<string, Comment>, id: string)
    requires id in comments
  {
    comments[id].targetType == TaskSequence && comments[id].legacy && comments[id].parent == None && !HasChild(comments, id)
  }

  function WithoutLegacy(s: State): State {
    s.(comments := map id | id in s.comments && !Purged(s.comments, id) :: s.comments[id])
  }

  // ----------------------------------------------------------------------- configuration

  datatype GroupDto = GroupDto(id: Option<string>, name: string, archived: bool, members: seq<Member>)

  datatype CategoryDto = CategoryDto(id: Option<string>, name: string, archived: bool)

  datatype ConfigDto = ConfigDto(
    version: nat, mode: Mode, confirmed: bool, enableReview: bool,
    groups: Option<seq<GroupDto>>, deletedGroups: seq<string>,
    categories: Option<seq<CategoryDto>>, deletedCategories: seq<string>)

  /** The identities of the ACP, fresh ids, `toLowerCase`, and the readiness check. */
  datatype Env = Env(known: Member -> bool, freshId: nat -> string, lower: string -> string, ready: bool)

  /** Members that the ACP no longer knows are dropped if the group had them, else refused. */
  function MembersFrom(env: Env, previous: seq<Member>, members: seq<Member>): Result<seq<Member>, Refusal> {
    if members == [] then Ok([])
    else
      var m := members[|members| - 1];
      match MembersFrom(env, previous, members[..|members| - 1])
      case Err(e) => Err(e)
      case Ok(rest) => if env.known(m) then Ok(rest + [m]) else if m in previous then Ok(rest) else Err(NotAMember)
  }

  function FindMembers(groups: seq<Group>, id: string): seq<Member> {
    if groups == [] then [] else if groups[0].id == id then groups[0].members else FindMembers(groups[1..], id)
  }

  function GroupsFrom(env: Env, previous: seq<Group>, dtos: seq<GroupDto>): Result<seq<Group>, Refusal> {
    if dtos == [] then Ok([])
    else
      var n := |dtos| - 1;
      match GroupsFrom(env, previous, dtos[..n])
      case Err(e) => Err(e)
      case Ok(rest) => GroupFrom(env, previous, rest, dtos[n], n)
  }

  function GroupFrom(env: Env, previous: seq<Group>, rest: seq<Group>, dto: GroupDto, n: nat): Result<seq<Group>, Refusal> {
    var id := if dto.id.Some? then dto.id.value else env.freshId(n);
    if Trim(dto.name) == "" then Err(NameMissing)
    else if dto.id.Some? && !HasGroup(previous, id) then Err(UnknownEntry)
    else if HasGroup(rest, id) then Err(DoubledEntry)
    else
      match MembersFrom(env, FindMembers(previous, id), dto.members)
      case Err(e) => Err(e)
      case Ok(members) => Ok(rest + [Group(id, Trim(dto.name), dto.archived, members)])
  }

  function CategoriesFrom(env: Env, previous: seq<Category>, dtos: seq<CategoryDto>): Result<seq<Category>, Refusal> {
    if dtos == [] then Ok([])
    else
      var n := |dtos| - 1;
      match CategoriesFrom(env, previous, dtos[..n])
      case Err(e) => Err(e)
      case Ok(rest) => CategoryFrom(env, previous, rest, dtos[n], n)
  }

  function CategoryFrom(env: Env, previous: seq<Category>, rest: seq<Category>, dto: CategoryDto, n: nat): Result<seq<Category>, Refusal> {
    var id, name := if dto.id.Some? then dto.id.value else env.freshId(n), Trim(dto.name);
    if name == "" then Err(NameMissing)
    else if dto.id.Some? && !HasCategory(previous, id) then Err(UnknownEntry)
    else if HasCategory(rest, id) || HasName(env, rest, env.lower(name)) then Err(DoubledEntry)
    else Ok(rest + [Category(id, name, dto.archived)])
  }

  predicate HasName(env: Env, categories: seq<Category>, lowered: string) {
    exists i :: 0 <= i < |categories| && env.lower(categories[i].name) == lowered
  }

  predicate GroupUsed(comments: map<string, Comment>, id: string) { exists k :: k in comments && comments[k].group == Some(id) }

  predicate CategoryUsed(comments: map<string, Comment>, id: string) { exists k :: k in comments && comments[k].category == Some(id) }

  /** A group that is missing must be named for deletion and must not be referred to, not even by a
      deleted comment. */
  predicate MayDropGroups(s: State, dto: ConfigDto, next: seq<Group>) {
    forall i :: 0 <= i < |s.config.groups| ==>
      HasGroup(next, s.config.groups[i].id) || (s.config.groups[i].id in dto.deletedGroups && !GroupUsed(s.comments, s.config.groups[i].id))
  }

  predicate MayDropCategories(s: State, dto: ConfigDto, next: seq<Category>) {
    forall i :: 0 <= i < |s.config.categories| ==>
      HasCategory(next, s.config.categories[i].id) || (s.config.categories[i].id in dto.deletedCategories && !CategoryUsed(s.comments, s.config.categories[i].id))
  }

  function NextGroups(env: Env, s: State, dto: ConfigDto): Result<seq<Group>, Refusal> {
    match dto.groups
    case None => Ok(s.config.groups)
    case Some(dtos) =>
      match GroupsFrom(env, s.config.groups, dtos)
      case Err(e) => Err(e)
      case Ok(next) => if MayDropGroups(s, dto, next) then Ok(next) else Err(StillUsed)
  }

  function NextCategories(env: Env, s: State, dto: ConfigDto): Result<seq<Category>, Refusal> {
    match dto.categories
    case None => Ok(s.config.categories)
    case Some(dtos) =>
      match CategoriesFrom(env, s.config.categories, dtos)
      case Err(e) => Err(e)
      case Ok(next) => if MayDropCategories(s, dto, next) then Ok(next) else Err(StillUsed)
  }

  /** `configure` */
  function Configured(env: Env, s: State, dto: ConfigDto): Result<State, Refusal> {
    var c := s.config;
    if dto.enableReview && !c.reviewEnabled && !env.ready then Err(NotReady)
    else if c.version != dto.version then Err(Conflict)
    else if dto.mode == Shared && c.mode != Shared && !dto.confirmed then Err(NotConfirmed)
    else
      match NextGroups(env, s, dto)
      case Err(e) => Err(e)
      case Ok(groups) =>
        match NextCategories(env, s, dto)
        case Err(e) => Err(e)
        case Ok(categories) =>
          Ok(s.(config := c.(
            groups := groups, categories := categories,
            ungroupedMode := if dto.mode == Grouped && c.mode != Grouped then c.mode else c.ungroupedMode,
            reviewEnabled := dto.enableReview, mode := dto.mode,
            version := c.version + 1, revision := c.revision + 1)))
  }

  /** The update of the access configuration leaves the review's own settings alone. */
  function AccessUpdated(s: State, commentingEnabled: bool, targets: seq<TargetType>): State {
    s.(config := s.config.(commentingEnabled := commentingEnabled, targets := targets))
  }

  // -------------------------------------------------------------------------------- runs

  datatype Event =
    | Create(p: Person, draft: Draft)
    | Edit(p: Person, id: string, text: string, version: nat, category: Option<Option<string>>, known: bool, at: nat)
    | Delete(p: Person, id: string, version: nat, known: bool, at: nat)
    | PurgeLegacy
    | Configure(env: Env, dto: ConfigDto)
    | UpdateAccess(commentingEnabled: bool, targets: seq<TargetType>)

  function Attempt(s: State, e: Event): Result<State, Refusal> {
    match e
    case Create(p, d) => Created(s, p, d)
    case Edit(p, id, text, version, category, known, at) => Edited(s, p, id, text, version, category, known, at)
    case Delete(p, id, version, known, at) => Erased(s, p, id, version, known, at)
    case PurgeLegacy => Ok(WithoutLegacy(s))
    case Configure(env, dto) => Configured(env, s, dto)
    case UpdateAccess(enabled, targets) => Ok(AccessUpdated(s, enabled, targets))
  }

  function Step(s: State, e: Event): State {
    match Attempt(s, e)
    case Err(_) => s
    case Ok(s') => s'
  }

  function Run(s: State, events: seq<Event>): State {
    if events == [] then s else Step(Run(s, events[..|events| - 1]), events[|events| - 1])
  }

  /** A comment's group and category are configured; a reply's parent is a root of its group. */
  ghost predicate Refers(s: State, c: Comment) {
    && (c.group.Some? ==> HasGroup(s.config.groups, c.group.value))
    && (c.category.Some? ==> HasCategory(s.config.categories, c.category.value))
    && (c.parent.Some? ==>
          && c.parent.value in s.comments
          && s.comments[c.parent.value].parent == None
          && s.comments[c.parent.value].group == c.group)
    && (c.legacy ==> !c.deleted)
  }

  ghost predicate Inv(s: State) {
    forall id :: id in s.comments ==> s.comments[id].id == id && Refers(s, s.comments[id])
  }

  // ------------------------------------------------------------------- each step keeps them

  lemma CreatedKeepsInv(s: State, p: Person, d: Draft)
    requires Inv(s) && Created(s, p, d).Ok?
    ensures Inv(Created(s, p, d).value)
  {
    var s' := Created(s, p, d).value;
    ChoicesAreConfigured(s.config, s.config.mode, p, d.group, d.category, None);
    var c := s'.comments[d.newId];
    if d.parent.Some? { assert Refers(s, s.comments[d.parent.value]); }
    forall id | id in s'.comments ensures s'.comments[id].id == id && Refers(s', s'.comments[id]) {
      if id != d.newId { assert Refers(s, s.comments[id]); }
    }
  }

  /** A comment is replaced by one that differs in its text, category, version or fate. */
  ghost predicate Revised(s: State, c: Comment, c': Comment) {
    && c'.id == c.id && c'.group == c.group && c'.parent == c.parent && c'.legacy == c.legacy
    && (c'.category.Some? ==> HasCategory(s.config.categories, c'.category.value))
    && (c'.legacy ==> !c'.deleted)
  }

  lemma RevisedKeepsInv(s: State, id: string, c': Comment)
    requires Inv(s) && id in s.comments && Revised(s, s.comments[id], c')
    ensures Inv(s.(comments := s.comments[id := c']))
  {
    var s' := s.(comments := s.comments[id := c']);
    forall k | k in s'.comments ensures s'.comments[k].id == k && Refers(s', s'.comments[k]) {
      assert Refers(s, s.comments[k]);
    }
  }

  lemma EditedKeepsInv(s: State, p: Person, id: string, text: string, version: nat, category: Option<Option<string>>, known: bool, at: nat)
    requires Inv(s) && Edited(s, p, id, text, version, category, known, at).Ok?
    ensures Inv(Edited(s, p, id, text, version, category, known, at).value)
  {
    var c := s.comments[id];
    assert Refers(s, c);
    ChoicesAreConfigured(s.config, s.config.mode, p, None, category, c.category);
    RevisedKeepsInv(s, id, Edited(s, p, id, text, version, category, known, at).value.comments[id]);
  }

  lemma ErasedKeepsInv(s: State, p: Person, id: string, version: nat, known: bool, at: nat)
    requires Inv(s) && Erased(s, p, id, version, known, at).Ok?
    ensures Inv(Erased(s, p, id, version, known, at).value)
  {
    assert Refers(s, s.comments[id]);
    RevisedKeepsInv(s, id, Erased(s, p, id, version, known, at).value.comments[id]);
  }

  lemma PurgeKeepsInv(s: State)
    requires Inv(s)
    ensures Inv(WithoutLegacy(s))
  {
    var s' := WithoutLegacy(s);
    forall id | id in s'.comments ensures s'.comments[id].id == id && Refers(s', s'.comments[id]) {
      var c := s.comments[id];
      assert Refers(s, c);
      if c.parent.Some? { assert HasChild(s.comments, c.parent.value); }
    }
  }

  lemma ConfiguredKeepsInv(env: Env, s: State, dto: ConfigDto)
    requires Inv(s) && Configured(env, s, dto).Ok?
    ensures Inv(Configured(env, s, dto).value)
  {
    var s' := Configured(env, s, dto).value;
    forall id | id in s'.comments ensures s'.comments[id].id == id && Refers(s', s'.comments[id]) {
      var c := s.comments[id];
      assert Refers(s, c);
      if c.group.Some? {
        var i :| 0 <= i < |s.config.groups| && s.config.groups[i].id == c.group.value;
        assert GroupUsed(s.comments, s.config.groups[i].id);
      }
      if c.category.Some? {
        var i :| 0 <= i < |s.config.categories| && s.config.categories[i].id == c.category.value;
        assert CategoryUsed(s.comments, s.config.categories[i].id);
      }
    }
  }

  lemma AccessKeepsInv(s: State, enabled: bool, targets: seq<TargetType>)
    requires Inv(s)
    ensures Inv(AccessUpdated(s, enabled, targets))
  {
    forall id | id in s.comments ensures Refers(AccessUpdated(s, enabled, targets), s.comments[id]) {
      assert Refers(s, s.comments[id]);
    }
  }

  lemma StepKeepsInv(s: State, e: Event)
    requires Inv(s)
    ensures Inv(Step(s, e))
  {
    if Attempt(s, e).Ok? {
      match e
      case Create(p, d) => CreatedKeepsInv(s, p, d);
      case Edit(p, id, text, version, category, known, at) => EditedKeepsInv(s, p, id, text, version, category, known, at);
      case Delete(p, id, version, known, at) => ErasedKeepsInv(s, p, id, version, known, at);
      case PurgeLegacy => PurgeKeepsInv(s);
      case Configure(env, dto) => ConfiguredKeepsInv(env, s, dto);
      case UpdateAccess(enabled, targets) => AccessKeepsInv(s, enabled, targets);
    }
  }

  /** Over every interleaving of comment and configuration changes, references hold. */
  lemma {:induction false} ReferencesHold(s: State, events: seq<Event>)
    requires Inv(s)
    ensures Inv(Run(s, events))
  {
    if events != [] {
      ReferencesHold(s, events[..|events| - 1]);
      StepKeepsInv(Run(s, events[..|events| - 1]), events[|events| - 1]);
    }
  }

  /** An ACP without access configuration and without comments. */
  const START := State(NO_CONFIG, map[])

  /** So they hold in everything that comes of such an ACP. */
  lemma ReferencesAlwaysHold(events: seq<Event>)
    ensures Inv(Run(START, events))
  {
    ReferencesHold(START, events);
  }

  // ------------------------------------------------------------------- deleted and stale

  lemma DeletedStays(s: State, e: Event, id: string)
    requires Inv(s) && id in s.comments && s.comments[id].deleted
    ensures id in Step(s, e).comments && Step(s, e).comments[id] == s.comments[id]
  {
    assert Refers(s, s.comments[id]);
  }

  /** A deleted comment is never changed or removed again. */
  lemma {:induction false} DeletedForever(s: State, events: seq<Event>, id: string)
    requires Inv(s) && id in s.comments && s.comments[id].deleted
    ensures id in Run(s, events).comments && Run(s, events).comments[id] == s.comments[id]
  {
    if events != [] {
      var before := events[..|events| - 1];
      DeletedForever(s, before, id);
      ReferencesHold(s, before);
      DeletedStays(Run(s, before), events[|events| - 1], id);
    }
  }

  /** An edit or a deletion based on another version than the current one changes nothing. */
  lemma StaleChangesNothing(s: State, e: Event)
    requires e.Edit? || e.Delete?
    requires e.id in s.comments ==> e.version != s.comments[e.id].version
    ensures Attempt(s, e).Err? && Step(s, e) == s
  {
  }

  /** Only the author of a comment may edit it, and only while it is not deleted and as it is now;
      the edit leaves its author, thread and group and all other comments alone. */
  lemma EditsAreOwn(s: State, e: Event)
    requires e.Edit? && Attempt(s, e).Ok?
    ensures e.id in s.comments && OwnedBy(s.comments[e.id], e.p) && !s.comments[e.id].deleted && s.comments[e.id].version == e.version
    ensures forall k :: k in Step(s, e).comments <==> k in s.comments
    ensures forall k :: k in s.comments && k != e.id ==> Step(s, e).comments[k] == s.comments[k]
    ensures var c, c' := s.comments[e.id], Step(s, e).comments[e.id];
      c'.version == c.version + 1 && c'.group == c.group && c'.parent == c.parent && c'.createdAt == c.createdAt
      && c'.userId == c.userId && c'.credentialId == c.credentialId
  {
  }

  // -------------------------------------------------------------------------- visibility

  /** All non-managers see the comments without a group. */
  predicate OpenToAll(c: Config) { c.mode == Shared || (c.mode == Grouped && c.ungroupedMode == Shared) }

  lemma WhoSeesUngrouped(config: Config, p: Person, c: Comment)
    requires c.group == None && !p.manager
    ensures CanView(config.mode, ActorFor(config, p), c) <==> OpenToAll(config) || OwnedBy(c, p)
  {
  }

  /** A confirmed transition to SHARED that goes through. */
  predicate SharesConfirmed(s: State, e: Event) {
    && e.Configure? && Attempt(s, e).Ok?
    && s.config.mode != Shared && e.dto.mode == Shared && e.dto.confirmed
  }

  /** Nothing else opens the comments without a group. */
  lemma OpensOnlyWhenConfirmed(s: State, e: Event)
    requires !OpenToAll(s.config)
    ensures OpenToAll(Step(s, e).config) <==> SharesConfirmed(s, e)
  {
  }

  ghost predicate NeverShares(s: State, events: seq<Event>) {
    forall i :: 0 <= i < |events| ==> !SharesConfirmed(Run(s, events[..i]), events[i])
  }

  lemma NeverSharesBefore(s: State, events: seq<Event>)
    requires events != [] && NeverShares(s, events)
    ensures NeverShares(s, events[..|events| - 1])
    ensures !SharesConfirmed(Run(s, events[..|events| - 1]), events[|events| - 1])
  {
    var n := |events| - 1;
    forall i | 0 <= i < n ensures !SharesConfirmed(Run(s, events[..n][..i]), events[..n][i]) {
      assert events[..n][..i] == events[..i];
    }
  }

  lemma {:induction false} StaysClosed(s: State, events: seq<Event>)
    requires !OpenToAll(s.config) && NeverShares(s, events)
    ensures !OpenToAll(Run(s, events).config)
  {
    if events != [] {
      var n := |events| - 1;
      NeverSharesBefore(s, events);
      StaysClosed(s, events[..n]);
      OpensOnlyWhenConfirmed(Run(s, events[..n]), events[n]);
    }
  }

  /** Without a confirmed transition to SHARED on the way, no non-manager comes to see an ungrouped
      comment that was hidden. */
  lemma UngroupedStayHidden(s: State, events: seq<Event>, p: Person, c: Comment)
    requires c.group == None && !p.manager && !CanView(s.config.mode, ActorFor(s.config, p), c)
    requires forall i :: 0 <= i < |events| ==> !SharesConfirmed(Run(s, events[..i]), events[i])
    ensures var config := Run(s, events).config; !CanView(config.mode, ActorFor(config, p), c)
  {
    WhoSeesUngrouped(s.config, p, c);
    StaysClosed(s, events);
    WhoSeesUngrouped(Run(s, events).config, p, c);
  }
}
