/** backend/src/item-explorer/item-explorer-state.service.ts: the service itself, and its viewer
    cache under every interleaving of readers and writers. A reader is cut at its two `await`s; a
    writer is two transactions, one that creates the first state and one that holds the lock. */
module ItemExplorerStateService {
  import opened ExplorerNormalizers
  import opened ItemExplorerState
  import opened JsMaps
  import opened JsObjects
  import opened Outcomes

  const MAX_VIEWER_STATE_CACHE_ENTRIES := 100

  /** What the cache holds, and what a viewer is shown. */
  datatype Entry = Entry(status: Status, version: nat, publishedVersion: nat, updatedBy: Actor, draftState: Payload, publishedState: Payload)

  type Cache = JsMap<string, Entry>

  /** `toViewerStateCacheEntry` */
  function EntryOf(env: Env, r: Record): Entry {
    Entry(r.status, r.version, r.publishedVersion, r.updatedBy, Normalized(env, r.draft), Normalized(env, r.published))
  }

  /** An entry tells of its row what the row says, and shows each of its two states normalised. */
  ghost predicate Shows(env: Env, r: Record, e: Entry) {
    && e.status == r.status && e.version == r.version && e.publishedVersion == r.publishedVersion && e.updatedBy == r.updatedBy
    && e.publishedState == Normalized(env, r.published)
    && e.draftState == Normalized(env, r.draft)
  }

  /** What a caller is answered. */
  datatype Envelope = Envelope(status: Status, version: nat, publishedVersion: nat, canEdit: bool, canPublish: bool, updatedBy: Actor,
                               activeState: Payload, publishedState: Payload, draftState: Payload)

  /** `toViewerEnvelope` */
  function EnvelopeOf(e: Entry, canEdit: bool): Envelope {
    Envelope(e.status, e.version, e.publishedVersion, canEdit, canEdit, e.updatedBy,
             if canEdit then e.draftState else e.publishedState, e.publishedState, if canEdit then e.draftState else e.publishedState)
  }

  function SiteAt(sites: map<string, Site>, acpId: string): Site {
    if acpId in sites then sites[acpId] else Site(None, None, [])
  }

  // -------------------------------------------------------- the reader between its awaits

  /** The version row still says what the cached entry says. */
  predicate SameVersions(cached: Entry, found: Option<Record>) {
    found.Some? && found.value.version == cached.version && found.value.publishedVersion == cached.publishedVersion
  }

  /** After the version check: the entry becomes the youngest, or it goes. */
  function AfterCheck(cache: Cache, acpId: string, cached: Entry, found: Option<Record>): Cache {
    if SameVersions(cached, found) then cache.Delete(acpId).Put(acpId, cached) else cache.Delete(acpId)
  }

  function AfterLoad(cache: Cache, acpId: string, entry: Entry): Cache {
    Evict(cache.Put(acpId, entry), MAX_VIEWER_STATE_CACHE_ENTRIES)
  }

  /** What has been loaded is cached, as the youngest entry unless the ACP has one already; the others stay
      as far as there is room. */
  lemma LoadedIsCached(cache: Cache, acpId: string, entry: Entry)
    requires cache.Valid() && cache.Size() <= MAX_VIEWER_STATE_CACHE_ENTRIES
    ensures var after := AfterLoad(cache, acpId, entry);
      && after.Valid() && after.Size() <= MAX_VIEWER_STATE_CACHE_ENTRIES && after.Has(acpId) && after.at[acpId] == entry
      && after.order == (if cache.Has(acpId) then cache.order else Last(cache.order, MAX_VIEWER_STATE_CACHE_ENTRIES - 1) + [acpId])
      && forall a :: a in after.at && a != acpId ==> a in cache.at && after.at[a] == cache.at[a]
  {
    if cache.Has(acpId) {
      PutValid(cache, acpId, entry);
      EvictShape(cache.Put(acpId, entry), MAX_VIEWER_STATE_CACHE_ENTRIES);
    } else {
      PutAndEvict(cache, acpId, entry, MAX_VIEWER_STATE_CACHE_ENTRIES);
    }
  }

  /** An entry that is still current is cached as the youngest one, another is dropped; the others stay. */
  lemma CheckedIsCached(cache: Cache, acpId: string, cached: Entry, found: Option<Record>)
    requires cache.Valid() && cache.Size() <= MAX_VIEWER_STATE_CACHE_ENTRIES && cache.Has(acpId)
    ensures var after := AfterCheck(cache, acpId, cached, found);
      && after.Valid() && after.Size() <= MAX_VIEWER_STATE_CACHE_ENTRIES
      && (after.Has(acpId) <==> SameVersions(cached, found))
      && after.order == Without(cache.order, acpId) + (if SameVersions(cached, found) then [acpId] else [])
      && (SameVersions(cached, found) ==> after.at[acpId] == cached)
      && forall a :: a != acpId ==> (a in after.at <==> a in cache.at) && (a in cache.at ==> after.at[a] == cache.at[a])
  {
    DeleteValid(cache, acpId);
    PutValid(cache.Delete(acpId), acpId, cached);
  }

  // ------------------------------------------------------------------ the transactions

  /** The end that the two drafting transactions share. */
  method SaveEdited(site: Site, before: Payload, draft: Payload, status: Status, changeType: ChangeType, actor: Actor) returns (after: Site)
    requires site.record.Some?
    ensures after == Edited(site, before, draft, status, changeType, actor)
  {
    var record := site.record.value.(draft := draft, status := status);
    record := record.(version := record.version + 1, updatedBy := actor);
    var entry := LogEntry(changeType, before, draft, record.version, record.publishedVersion, actor);
    return Site(site.acp, Some(record), site.log + [entry]);
  }

  method PatchLocked(env: Env, site: Site, patch: Patch, changeType: Option<string>, actor: Actor, baseVersion: Option<int>)
    returns (after: Site, refusal: Option<Refusal>)
    requires site.record.Some?
    ensures (after, refusal) == Patched(env, site, patch, changeType, actor, baseVersion)
  {
    var record := site.record.value;
    refusal := Conflict(record, baseVersion);
    if refusal.Some? { return site, refusal; }
    var before := Normalized(env, record.draft);
    var draft := MergeDraftPatch(env, before, patch);
    var published := Normalized(env, record.published);
    after := SaveEdited(site, before, draft, if draft == published then Clean else Dirty, OrElse(changeType, PATCH_DRAFT), actor);
  }

  method DiscardLocked(env: Env, site: Site, actor: Actor, baseVersion: Option<int>) returns (after: Site, refusal: Option<Refusal>)
    requires site.record.Some?
    ensures (after, refusal) == Discarded(env, site, actor, baseVersion)
  {
    var record := site.record.value;
    refusal := Conflict(record, baseVersion);
    if refusal.Some? { return site, refusal; }
    after := SaveEdited(site, Normalized(env, record.draft), Normalized(env, record.published), Clean, DISCARD_DRAFT, actor);
  }

  /** What the three publishing transactions share, `applyPublishedStateToDomain` included as far
      as the item properties are concerned. */
  method Publish(env: Env, site: Site, before: Payload, next: Payload, changeType: ChangeType, actor: Actor)
    returns (after: Site, refusal: Option<Refusal>)
    requires site.record.Some?
    ensures (after, refusal) == Published(env, site, before, next, changeType, actor)
  {
    if site.acp == None { return site, Some(NotFound); }
    var items := NormalizeItemProperties(env, RawItems(next.itemProperties));
    var record := site.record.value.(published := next, draft := next, status := Clean);
    record := record.(version := record.version + 1, publishedVersion := record.publishedVersion + 1, updatedBy := actor);
    var entry := LogEntry(changeType, before, next, record.version, record.publishedVersion, actor);
    return Site(Some(RawItems(items)), Some(record), site.log + [entry]), None;
  }

  method SaveLocked(env: Env, site: Site, actor: Actor, baseVersion: Option<int>) returns (after: Site, refusal: Option<Refusal>)
    requires site.record.Some?
    ensures (after, refusal) == Saved(env, site, actor, baseVersion)
  {
    var record := site.record.value;
    refusal := Conflict(record, baseVersion);
    if refusal.Some? { return site, refusal; }
    after, refusal := Publish(env, site, Normalized(env, record.published), Normalized(env, record.draft), SAVE_DRAFT, actor);
  }

  method PublishItemPropertiesLocked(env: Env, site: Site, itemProperties: Json, changeType: string, actor: Actor, baseVersion: Option<int>)
    returns (after: Site, refusal: Option<Refusal>)
    requires site.record.Some?
    ensures (after, refusal) == PropertiesPublished(env, site, itemProperties, changeType, actor, baseVersion)
  {
    var record := site.record.value;
    if record.status == Dirty { return site, Some(DraftPending); }
    refusal := Conflict(record, baseVersion);
    if refusal.Some? { return site, refusal; }
    var before := Normalized(env, record.published);
    var items := NormalizeItemProperties(env, itemProperties);
    after, refusal := Publish(env, site, before, before.(itemProperties := items), Named(changeType), actor);
  }

  method TagsApplied(env: Env, before: Payload, tags: Json) returns (next: Payload)
    ensures next == WithTags(env, before, tags)
  {
    var normalizedTags := NormalizeTags(env, tags);
    var items := NormalizeItemProperties(env, RawItems(before.itemProperties));
    ItemsShape(env, RawItems(before.itemProperties));
    items := ReplaceTags(items, normalizedTags);
    items := NormalizeItemProperties(env, RawItems(items));
    next := before.(tags := normalizedTags, itemProperties := items);
  }

  method PublishTagsLocked(env: Env, site: Site, tags: Json, changeType: Option<string>, actor: Actor, baseVersion: Option<int>)
    returns (after: Site, refusal: Option<Refusal>)
    requires site.record.Some?
    ensures (after, refusal) == TagsPublished(env, site, tags, changeType, actor, baseVersion)
  {
    var record := site.record.value;
    if record.status == Dirty { return site, Some(DraftPending); }
    refusal := Conflict(record, baseVersion);
    if refusal.Some? { return site, refusal; }
    var before := Normalized(env, record.published);
    var next := TagsApplied(env, before, tags);
    after, refusal := Publish(env, site, before, next, OrElse(changeType, REPLACE_ITEM_TAGS), actor);
  }

  lemma Overwritten<V>(m: map<string, V>, k: string, a: V, b: V)
    ensures m[k := a][k := b] == m[k := b]
  {
  }

  method Transaction(env: Env, site: Site, q: Request) returns (after: Site, refusal: Option<Refusal>)
    ensures (after, refusal) == Locked(env, site, q)
    ensures refusal == None ==> after.record.Some?
  {
    if site.record == None { return site, Some(NotFound); }
    match q.change
    case PatchDraft(patch, t) => after, refusal := PatchLocked(env, site, patch, t, q.actor, q.baseVersion);
    case DiscardDraft => after, refusal := DiscardLocked(env, site, q.actor, q.baseVersion);
    case SaveDraft => after, refusal := SaveLocked(env, site, q.actor, q.baseVersion);
    case PublishItemProperties(raw, t) => after, refusal := PublishItemPropertiesLocked(env, site, raw, t, q.actor, q.baseVersion);
    case PublishTags(raw, t) => after, refusal := PublishTagsLocked(env, site, raw, t, q.actor, q.baseVersion);
  }

  /** An editor's answer about a row. */
  ghost predicate Tells(env: Env, r: Record, a: Envelope) {
    && a.status == r.status && a.version == r.version && a.publishedVersion == r.publishedVersion && a.updatedBy == r.updatedBy
    && a.canEdit && a.canPublish
    && a.publishedState == Normalized(env, r.published)
    && a.draftState == Normalized(env, r.draft) && a.activeState == a.draftState
  }

  ghost predicate Answers(env: Env, outcome: (Site, Option<Refusal>), r: Result<Envelope, Refusal>) {
    match outcome.1
    case Some(refusal) => r == Err(refusal)
    case None => outcome.0.record.Some? && r.Ok? && Tells(env, outcome.0.record.value, r.value)
  }

  // ----------------------------------------------------------- what the calls answer

  /** An answer shows the published state that was shown before the call. */
  ghost predicate PublishedAsBefore(env: Env, before: Record, a: Envelope) {
    a.publishedState == Normalized(env, before.published) && a.publishedVersion == before.publishedVersion
  }

  /** Both states are the same, and it is a new published version. */
  ghost predicate PublishedAnew(before: Record, a: Envelope) {
    a.draftState == a.publishedState && a.status == Clean && a.publishedVersion == before.publishedVersion + 1
  }

  /** What an answered call has done to the two states of the row that it found. */
  ghost predicate Done(env: Env, before: Record, q: Request, a: Envelope) {
    a.version == before.version + 1 && a.updatedBy == q.actor && StatesAre(env, before, q.change, a)
  }

  ghost predicate StatesAre(env: Env, before: Record, c: Change, a: Envelope) {
    match c
    case PatchDraft(patch, _) =>
      var draft := Merged(env, Normalized(env, before.draft), patch);
      && PublishedAsBefore(env, before, a) && a.draftState == Normalized(env, draft)
      && (a.status == Clean <==> draft == Normalized(env, before.published))
    case DiscardDraft => PublishedAsBefore(env, before, a) && a.draftState == a.publishedState && a.status == Clean
    case SaveDraft => PublishedAnew(before, a) && a.publishedState == Normalized(env, before.draft)
    case PublishItemProperties(raw, _) =>
      PublishedAnew(before, a) && a.publishedState == Normalized(env, before.published).(itemProperties := ItemsOf(env, raw))
    case PublishTags(raw, _) =>
      && PublishedAnew(before, a) && a.publishedState.tags == TagsOf(env, raw)
      && a.publishedState == Normalized(env, before.published).(tags := a.publishedState.tags, itemProperties := a.publishedState.itemProperties)
  }

  lemma PatchedAnswer(env: Env, site: Site, patch: Patch, t: Option<string>, actor: Actor, baseVersion: Option<int>, outcome: (Site, Option<Refusal>), a: Envelope)
    requires site.record.Some? && outcome == Patched(env, site, patch, t, actor, baseVersion) && outcome.1 == None && outcome.0.record.Some?
    requires Tells(env, outcome.0.record.value, a)
    ensures PublishedAsBefore(env, site.record.value, a)
    ensures a.draftState == Normalized(env, Merged(env, Normalized(env, site.record.value.draft), patch))
    ensures a.status == Clean <==> Merged(env, Normalized(env, site.record.value.draft), patch) == Normalized(env, site.record.value.published)
  {
  }

  lemma DiscardedAnswer(env: Env, site: Site, actor: Actor, baseVersion: Option<int>, outcome: (Site, Option<Refusal>), a: Envelope)
    requires Inv(env, site) && site.record.Some? && outcome == Discarded(env, site, actor, baseVersion) && outcome.1 == None
    requires outcome.0.record.Some? && Tells(env, outcome.0.record.value, a)
    ensures PublishedAsBefore(env, site.record.value, a) && a.draftState == a.publishedState && a.status == Clean
  {
    NormalizedSettles(env, site.record.value.published);
  }

  lemma PublishedAnswer(env: Env, site: Site, before: Payload, next: Payload, t: ChangeType, actor: Actor, outcome: (Site, Option<Refusal>), a: Envelope)
    requires site.record.Some? && outcome == Published(env, site, before, next, t, actor) && outcome.1 == None
    requires outcome.0.record.Some? && Tells(env, outcome.0.record.value, a)
    ensures PublishedAnew(site.record.value, a) && a.publishedState == Normalized(env, next)
  {
  }

  /** Item properties and tags in place of those of a normalised state. */
  lemma ReplacedSettles(env: Env, p: Payload, tags: Tags, items: ItemTable)
    requires Tidy(env, p) && AreTags(tags) && AreItems(env, items)
    ensures var q := Normalized(env, p).(tags := tags, itemProperties := items); Normalized(env, q) == q
  {
    var before := Normalized(env, p);
    var q := before.(tags := tags, itemProperties := items);
    SettlesTheSecondTime(env, p);
    NormalizedParts(env, before);
    NormalizedParts(env, q);
  }

  lemma PropertiesAnswer(env: Env, site: Site, raw: Json, t: string, actor: Actor, baseVersion: Option<int>, outcome: (Site, Option<Refusal>), a: Envelope)
    requires Inv(env, site) && site.record.Some? && outcome == PropertiesPublished(env, site, raw, t, actor, baseVersion) && outcome.1 == None
    requires outcome.0.record.Some? && Tells(env, outcome.0.record.value, a)
    ensures PublishedAnew(site.record.value, a)
    ensures a.publishedState == Normalized(env, site.record.value.published).(itemProperties := ItemsOf(env, raw))
  {
    var before := Normalized(env, site.record.value.published);
    var next := before.(itemProperties := ItemsOf(env, raw));
    PublishedAnswer(env, site, before, next, Named(t), actor, outcome, a);
    ItemsShape(env, raw);
    NormalizedTidy(env, site.record.value.published);
    ReplacedSettles(env, site.record.value.published, before.tags, ItemsOf(env, raw));
  }

  lemma TagsAnswer(env: Env, site: Site, raw: Json, t: Option<string>, actor: Actor, baseVersion: Option<int>, outcome: (Site, Option<Refusal>), a: Envelope)
    requires Inv(env, site) && site.record.Some? && outcome == TagsPublished(env, site, raw, t, actor, baseVersion) && outcome.1 == None
    requires outcome.0.record.Some? && Tells(env, outcome.0.record.value, a)
    ensures PublishedAnew(site.record.value, a) && a.publishedState.tags == TagsOf(env, raw)
    ensures a.publishedState == Normalized(env, site.record.value.published).(tags := a.publishedState.tags, itemProperties := a.publishedState.itemProperties)
  {
    var before := Normalized(env, site.record.value.published);
    var next := WithTags(env, before, raw);
    PublishedAnswer(env, site, before, next, OrElse(t, REPLACE_ITEM_TAGS), actor, outcome, a);
    NormalizedTidy(env, site.record.value.published);
    WithTagsTidy(env, before, raw);
    ReplacedSettles(env, site.record.value.published, next.tags, next.itemProperties);
  }

  lemma SavedAnswer(env: Env, site: Site, actor: Actor, baseVersion: Option<int>, outcome: (Site, Option<Refusal>), a: Envelope)
    requires Inv(env, site) && site.record.Some? && outcome == Saved(env, site, actor, baseVersion) && outcome.1 == None
    requires outcome.0.record.Some? && Tells(env, outcome.0.record.value, a)
    ensures PublishedAnew(site.record.value, a) && a.publishedState == Normalized(env, site.record.value.draft)
  {
    var r := site.record.value;
    PublishedAnswer(env, site, Normalized(env, r.published), Normalized(env, r.draft), SAVE_DRAFT, actor, outcome, a);
    NormalizedSettles(env, r.draft);
  }

  lemma LockedAnswer(env: Env, site: Site, q: Request, outcome: (Site, Option<Refusal>), r: Result<Envelope, Refusal>)
    requires Inv(env, site) && outcome == Locked(env, site, q) && Answers(env, outcome, r) && r.Ok?
    ensures site.record.Some? && StatesAre(env, site.record.value, q.change, r.value)
  {
    match q.change
    case PatchDraft(patch, t) => PatchedAnswer(env, site, patch, t, q.actor, q.baseVersion, outcome, r.value);
    case DiscardDraft => DiscardedAnswer(env, site, q.actor, q.baseVersion, outcome, r.value);
    case SaveDraft => SavedAnswer(env, site, q.actor, q.baseVersion, outcome, r.value);
    case PublishItemProperties(raw, t) => PropertiesAnswer(env, site, raw, t, q.actor, q.baseVersion, outcome, r.value);
    case PublishTags(raw, t) => TagsAnswer(env, site, raw, t, q.actor, q.baseVersion, outcome, r.value);
  }

  lemma LockedBy(env: Env, site: Site, q: Request, outcome: (Site, Option<Refusal>))
    requires outcome == Locked(env, site, q) && outcome.1 == None
    ensures outcome.0.record.Some? && outcome.0.record.value.updatedBy == q.actor
    ensures outcome.0.log != [] && outcome.0.log[|outcome.0.log| - 1].actor == q.actor
  {
    match q.change
    case PatchDraft(patch, t) =>
    case DiscardDraft =>
    case SaveDraft =>
    case PublishItemProperties(raw, t) =>
    case PublishTags(raw, t) =>
  }

  /** What the answer of a call shows, told by what was shown before it: patching and discarding leave
      the published state as it was, and discarding shows it as the draft; saving publishes the draft
      that was shown; publishing item properties or tags replaces those and nothing else. */
  lemma AnswersTellWhatWasDone(env: Env, site: Site, columns: RawColumns, q: Request, r: Result<Envelope, Refusal>)
    requires Inv(env, site) && Answers(env, Apply(env, site, columns, q), r) && r.Ok?
    ensures var before := Ensured(env, site, columns).record; before.Some? && Done(env, before.value, q, r.value)
  {
    EnsuredKeepsInv(env, site, columns);
    LockedAnswer(env, Ensured(env, site, columns), q, Apply(env, site, columns, q), r);
    LockedIsExact(env, Ensured(env, site, columns), q);
    LockedBy(env, Ensured(env, site, columns), q, Apply(env, site, columns, q));
  }

  // ------------------------------------------------------------------------- the service

  class ItemExplorerStateService {
    const env: Env
    var sites: map<string, Site>
    var viewerStateCache: Cache

    ghost predicate Valid() reads this { viewerStateCache.Valid() }

    constructor (env: Env, sites: map<string, Site>)
      ensures Valid() && this.env == env && this.sites == sites && viewerStateCache == EmptyMap()
    {
      this.env, this.sites, viewerStateCache := env, sites, EmptyMap();
    }

    method EnsureStateRecord(acpId: string, columns: RawColumns)
      modifies this`sites
      ensures sites == old(sites)[acpId := Ensured(env, SiteAt(old(sites), acpId), columns)]
    {
      var site := SiteAt(sites, acpId);
      if site.record == None && site.acp.Some? {
        var state := DefaultState(env, site.acp.value, columns);
        site := site.(record := Some(Record(state, state, Clean, 1, 1, Actor(None, None))));
      }
      sites := sites[acpId := site];
    }

    /** `withLockedState` with each of the five operations. */
    method WithLockedState(acpId: string, columns: RawColumns, q: Request) returns (r: Result<Envelope, Refusal>)
      modifies this`sites
      ensures sites == old(sites)[acpId := Apply(env, SiteAt(old(sites), acpId), columns, q).0]
      ensures Answers(env, Apply(env, SiteAt(old(sites), acpId), columns, q), r)
      ensures Inv(env, SiteAt(old(sites), acpId)) && r.Ok? ==>
                var row := Ensured(env, SiteAt(old(sites), acpId), columns).record; row.Some? && Done(env, row.value, q, r.value)
    {
      ghost var before := sites;
      EnsureStateRecord(acpId, columns);
      var site := sites[acpId];
      var after, refusal := Transaction(env, site, q);
      Overwritten(before, acpId, site, after);
      sites := sites[acpId := after];
      r := match refusal case Some(e) => Err(e) case None => Ok(EnvelopeOf(EntryOf(env, after.record.value), true));
      if Inv(env, SiteAt(before, acpId)) && r.Ok? { AnswersTellWhatWasDone(env, SiteAt(before, acpId), columns, q, r); }
    }

    /** The reader from the answer of its version query on. */
    method FinishCheck(acpId: string, cached: Entry, found: Option<Record>) returns (served: Option<Entry>)
      requires Valid()
      modifies this`viewerStateCache
      ensures Valid() && viewerStateCache == AfterCheck(old(viewerStateCache), acpId, cached, found)
      ensures served == if SameVersions(cached, found) then Some(cached) else None
    {
      var without := viewerStateCache.Delete(acpId);
      DeleteValid(viewerStateCache, acpId);
      PutValid(without, acpId, cached);
      if SameVersions(cached, found) {
        viewerStateCache := without.Put(acpId, cached);
        return Some(cached);
      }
      viewerStateCache := without;
      return None;
    }

    /** The reader from the answer of its state query on. */
    method FinishLoad(acpId: string, record: Record) returns (entry: Entry)
      requires Valid()
      modifies this`viewerStateCache
      ensures Valid() && Shows(env, record, entry) && viewerStateCache == AfterLoad(old(viewerStateCache), acpId, entry)
    {
      entry := EntryOf(env, record);
      var put := viewerStateCache.Put(acpId, entry);
      PutValid(viewerStateCache, acpId, entry);
      EvictShape(put, MAX_VIEWER_STATE_CACHE_ENTRIES);
      viewerStateCache := EvictOldest(put, MAX_VIEWER_STATE_CACHE_ENTRIES);
    }
  }

  // ---------------------------------------------------- readers and writers, interleaved

  /** A reader of the viewer state, cut where it waits for the database. `Served` keeps the row that
      the database held when the reader last asked it. */
  datatype Reader =
    | Checking(acpId: string, cached: Entry)
    | Checked(acpId: string, cached: Entry, found: Option<Record>)
    | Loading(acpId: string)
    | Loaded(acpId: string, record: Record)
    | Served(acpId: string, entry: Entry, row: Record)
    | Failed(acpId: string)

  datatype World = World(sites: map<string, Site>, cache: Cache, readers: map<nat, Reader>, past: map<string, seq<Record>>)

  datatype Event =
    | Begin(reader: nat, acpId: string)
    | ReadVersion(reader: nat)
    | FinishCheck(reader: nat)
    | ReadState(reader: nat, columns: RawColumns)
    | FinishLoad(reader: nat)
    | Initialize(acpId: string, columns: RawColumns)
    | Write(acpId: string, request: Request)

  function PastOf(w: World, acpId: string): seq<Record> {
    if acpId in w.past then w.past[acpId] else []
  }

  /** A transaction has changed the rows of an ACP; each row that was there is remembered. */
  function WithSite(w: World, acpId: string, site: Site): World {
    w.(sites := w.sites[acpId := site],
       past := if site.record != SiteAt(w.sites, acpId).record && site.record.Some?
               then w.past[acpId := PastOf(w, acpId) + [site.record.value]] else w.past)
  }

  function WithReader(w: World, id: nat, r: Reader): World { w.(readers := w.readers[id := r]) }

  function Ensure(env: Env, w: World, acpId: string, columns: RawColumns): World {
    WithSite(w, acpId, Ensured(env, SiteAt(w.sites, acpId), columns))
  }

  /** How a row is shown. */
  function View(env: Env): Record -> Entry { r => EntryOf(env, r) }

  function Step(env: Env, show: Record -> Entry, w: World, e: Event): World {
    match e
    case Begin(id, acpId) => if id in w.readers then w else Start(w, id, acpId)
    case ReadVersion(id) => if id in w.readers && w.readers[id].Checking? then Ask(w, id) else w
    case FinishCheck(id) => if id in w.readers && w.readers[id].Checked? then Check(w, id) else w
    case ReadState(id, columns) => if id in w.readers && w.readers[id].Loading? then Fetch(env, w, id, columns) else w
    case FinishLoad(id) => if id in w.readers && w.readers[id].Loaded? then Show(show, w, id) else w
    case Initialize(acpId, columns) => Ensure(env, w, acpId, columns)
    case Write(acpId, request) => LockAndWrite(env, w, acpId, request)
  }

  function Start(w: World, id: nat, acpId: string): World {
    WithReader(w, id, if w.cache.Has(acpId) then Checking(acpId, w.cache.at[acpId]) else Loading(acpId))
  }

  function Ask(w: World, id: nat): World
    requires id in w.readers && w.readers[id].Checking?
  {
    var r := w.readers[id];
    WithReader(w, id, Checked(r.acpId, r.cached, SiteAt(w.sites, r.acpId).record))
  }

  function Check(w: World, id: nat): World
    requires id in w.readers && w.readers[id].Checked?
  {
    var r := w.readers[id];
    WithReader(w.(cache := AfterCheck(w.cache, r.acpId, r.cached, r.found)), id,
               if SameVersions(r.cached, r.found) then Served(r.acpId, r.cached, r.found.value) else Loading(r.acpId))
  }

  function Fetch(env: Env, w: World, id: nat, columns: RawColumns): World
    requires id in w.readers && w.readers[id].Loading?
  {
    var acpId := w.readers[id].acpId;
    Fetched(Ensure(env, w, acpId, columns), id, acpId)
  }

  function Fetched(w: World, id: nat, acpId: string): World {
    WithReader(w, id, match SiteAt(w.sites, acpId).record { case None => Failed(acpId) case Some(r) => Loaded(acpId, r) })
  }

  function Show(show: Record -> Entry, w: World, id: nat): World
    requires id in w.readers && w.readers[id].Loaded?
  {
    var r := w.readers[id];
    WithReader(w.(cache := AfterLoad(w.cache, r.acpId, show(r.record))), id, Served(r.acpId, show(r.record), r.record))
  }

  function LockAndWrite(env: Env, w: World, acpId: string, request: Request): World {
    WithSite(w, acpId, Locked(env, SiteAt(w.sites, acpId), request).0)
  }

  function RunEvents(env: Env, w: World, events: seq<Event>): World {
    if events == [] then w else Step(env, View(env), RunEvents(env, w, events[..|events| - 1]), events[|events| - 1])
  }

  // --------------------------------------------------------------------- the invariant

  /** The rows an ACP has had, one for each version. */
  ghost predicate Remembers(row: Option<Record>, past: seq<Record>) {
    && (forall i :: 0 <= i < |past| ==> past[i].version == i + 1)
    && match row {
         case None => past == []
         case Some(r) => past != [] && past[|past| - 1] == r
       }
  }

  ghost predicate WasThere(past: seq<Record>, r: Record) {
    1 <= r.version <= |past| && past[r.version - 1] == r
  }

  /** An entry made from a row that was there. */
  ghost predicate Genuine(show: Record -> Entry, past: seq<Record>, e: Entry) {
    1 <= e.version <= |past| && e == show(past[e.version - 1])
  }

  ghost predicate GenuineReader(show: Record -> Entry, past: seq<Record>, r: Reader) {
    match r
    case Checking(_, cached) => Genuine(show, past, cached)
    case Checked(_, cached, found) => Genuine(show, past, cached) && (found.Some? ==> WasThere(past, found.value))
    case Loading(_) => true
    case Loaded(_, record) => WasThere(past, record)
    case Served(_, entry, row) => WasThere(past, row) && entry == show(row)
    case Failed(_) => true
  }

  ghost predicate RowsRemembered(w: World) {
    forall a :: Remembers(SiteAt(w.sites, a).record, PastOf(w, a))
  }

  ghost predicate CacheGenuine(show: Record -> Entry, w: World) {
    w.cache.Valid() && forall a :: a in w.cache.at ==> Genuine(show, PastOf(w, a), w.cache.at[a])
  }

  ghost predicate ReadersGenuine(show: Record -> Entry, w: World) {
    forall id :: id in w.readers ==> GenuineReader(show, PastOf(w, w.readers[id].acpId), w.readers[id])
  }

  ghost predicate Views(show: Record -> Entry, w: World) {
    RowsRemembered(w) && CacheGenuine(show, w) && ReadersGenuine(show, w)
  }

  ghost predicate SitesInOrder(env: Env, w: World) {
    forall a :: Inv(env, SiteAt(w.sites, a))
  }

  /** An entry carries the version of its row. */
  ghost predicate ShowsVersion(show: Record -> Entry) {
    forall r :: show(r).version == r.version
  }

  ghost predicate Begins(w: World) {
    && w.cache == EmptyMap() && w.readers == map[] && w.past == map[]
    && forall a :: SiteAt(w.sites, a).record == None && SiteAt(w.sites, a).log == []
  }

  // ------------------------------------------------------------------------ the writers

  /** Rows are only added to what is remembered. */
  lemma StillGenuine(show: Record -> Entry, w: World, acpId: string, site: Site)
    requires CacheGenuine(show, w) && ReadersGenuine(show, w)
    ensures CacheGenuine(show, WithSite(w, acpId, site)) && ReadersGenuine(show, WithSite(w, acpId, site))
  {
    var w' := WithSite(w, acpId, site);
    assert forall a :: PastOf(w, a) <= PastOf(w', a);
    forall a | a in w'.cache.at ensures Genuine(show, PastOf(w', a), w'.cache.at[a]) {
      assert Genuine(show, PastOf(w, a), w.cache.at[a]);
    }
    forall id | id in w'.readers ensures GenuineReader(show, PastOf(w', w'.readers[id].acpId), w'.readers[id]) {
      assert GenuineReader(show, PastOf(w, w.readers[id].acpId), w.readers[id]);
    }
  }

  /** The row stays as it is or its version is raised by one. */
  ghost predicate OneVersion(before: Option<Record>, after: Option<Record>) {
    after == before || (after.Some? && after.value.version == (if before.Some? then before.value.version else 0) + 1)
  }

  lemma SiteChanged(show: Record -> Entry, w: World, acpId: string, site: Site)
    requires Views(show, w) && OneVersion(SiteAt(w.sites, acpId).record, site.record)
    ensures Views(show, WithSite(w, acpId, site))
  {
    var w' := WithSite(w, acpId, site);
    StillGenuine(show, w, acpId, site);
    forall a ensures Remembers(SiteAt(w'.sites, a).record, PastOf(w', a)) {
      assert Remembers(SiteAt(w.sites, a).record, PastOf(w, a));
    }
  }

  lemma StillInOrder(env: Env, w: World, acpId: string, site: Site)
    requires SitesInOrder(env, w) && Inv(env, site)
    ensures SitesInOrder(env, WithSite(w, acpId, site))
  {
    var w' := WithSite(w, acpId, site);
    forall a ensures Inv(env, SiteAt(w'.sites, a)) { assert Inv(env, SiteAt(w.sites, a)); }
  }

  lemma LockedVersions(env: Env, site: Site, request: Request)
    requires Inv(env, site)
    ensures OneVersion(site.record, Locked(env, site, request).0.record)
  {
    LockedIsExact(env, site, request);
  }

  lemma EnsuredVersions(env: Env, site: Site, columns: RawColumns)
    requires Inv(env, site)
    ensures OneVersion(site.record, Ensured(env, site, columns).record)
  {
  }

  lemma EnsureKeepsInv(env: Env, show: Record -> Entry, w: World, acpId: string, columns: RawColumns)
    requires SitesInOrder(env, w) && Views(show, w)
    ensures SitesInOrder(env, Ensure(env, w, acpId, columns)) && Views(show, Ensure(env, w, acpId, columns))
  {
    var site := SiteAt(w.sites, acpId);
    EnsuredKeepsInv(env, site, columns);
    EnsuredVersions(env, site, columns);
    StillInOrder(env, w, acpId, Ensured(env, site, columns));
    SiteChanged(show, w, acpId, Ensured(env, site, columns));
  }

  lemma WriteKeepsInv(env: Env, show: Record -> Entry, w: World, acpId: string, request: Request)
    requires SitesInOrder(env, w) && Views(show, w)
    ensures SitesInOrder(env, LockAndWrite(env, w, acpId, request)) && Views(show, LockAndWrite(env, w, acpId, request))
  {
    var site := SiteAt(w.sites, acpId);
    LockedKeepsInv(env, site, request);
    LockedVersions(env, site, request);
    StillInOrder(env, w, acpId, Locked(env, site, request).0);
    SiteChanged(show, w, acpId, Locked(env, site, request).0);
  }

  // ------------------------------------------------------------------------ the readers

  lemma ReaderMoves(show: Record -> Entry, w: World, id: nat, r: Reader)
    requires Views(show, w) && GenuineReader(show, PastOf(w, r.acpId), r)
    ensures Views(show, WithReader(w, id, r))
  {
    var w' := WithReader(w, id, r);
    assert forall a :: PastOf(w', a) == PastOf(w, a);
    forall i | i in w'.readers ensures GenuineReader(show, PastOf(w', w'.readers[i].acpId), w'.readers[i]) {
      if i != id { assert GenuineReader(show, PastOf(w, w.readers[i].acpId), w.readers[i]); }
    }
    forall a ensures Remembers(SiteAt(w'.sites, a).record, PastOf(w', a)) {
      assert Remembers(SiteAt(w.sites, a).record, PastOf(w, a));
    }
  }

  lemma CacheMoves(show: Record -> Entry, w: World, cache: Cache)
    requires Views(show, w) && cache.Valid() && forall a :: a in cache.at ==> Genuine(show, PastOf(w, a), cache.at[a])
    ensures Views(show, w.(cache := cache))
  {
    var w' := w.(cache := cache);
    assert forall a :: PastOf(w', a) == PastOf(w, a);
    forall i | i in w'.readers ensures GenuineReader(show, PastOf(w', w'.readers[i].acpId), w'.readers[i]) {
      assert GenuineReader(show, PastOf(w, w.readers[i].acpId), w.readers[i]);
    }
    forall a ensures Remembers(SiteAt(w'.sites, a).record, PastOf(w', a)) {
      assert Remembers(SiteAt(w.sites, a).record, PastOf(w, a));
    }
  }

  /** Because every writer raises the version, the same version means the same row. */
  lemma HitIsCurrent(show: Record -> Entry, past: seq<Record>, cached: Entry, found: Option<Record>)
    requires Genuine(show, past, cached) && SameVersions(cached, found) && WasThere(past, found.value)
    ensures cached == show(found.value)
  {
  }

  lemma CheckedCache(show: Record -> Entry, w: World, acpId: string, cached: Entry, found: Option<Record>)
    requires CacheGenuine(show, w) && Genuine(show, PastOf(w, acpId), cached)
    ensures var cache := AfterCheck(w.cache, acpId, cached, found);
      cache.Valid() && forall a :: a in cache.at ==> Genuine(show, PastOf(w, a), cache.at[a])
  {
    DeleteValid(w.cache, acpId);
    var cache := AfterCheck(w.cache, acpId, cached, found);
    forall a | a in cache.at ensures Genuine(show, PastOf(w, a), cache.at[a]) {
      if a != acpId { assert Genuine(show, PastOf(w, a), w.cache.at[a]); }
    }
  }

  lemma CheckKeepsInv(show: Record -> Entry, w: World, id: nat)
    requires Views(show, w) && id in w.readers && w.readers[id].Checked?
    ensures Views(show, Check(w, id))
  {
    var r := w.readers[id];
    assert GenuineReader(show, PastOf(w, r.acpId), r);
    var cache := AfterCheck(w.cache, r.acpId, r.cached, r.found);
    CheckedCache(show, w, r.acpId, r.cached, r.found);
    CacheMoves(show, w, cache);
    if SameVersions(r.cached, r.found) {
      HitIsCurrent(show, PastOf(w, r.acpId), r.cached, r.found);
      ReaderMoves(show, w.(cache := cache), id, Served(r.acpId, r.cached, r.found.value));
    } else {
      ReaderMoves(show, w.(cache := cache), id, Loading(r.acpId));
    }
  }

  lemma LoadedCache(show: Record -> Entry, w: World, acpId: string, entry: Entry)
    requires CacheGenuine(show, w) && Genuine(show, PastOf(w, acpId), entry)
    ensures var cache := AfterLoad(w.cache, acpId, entry);
      cache.Valid() && forall a :: a in cache.at ==> Genuine(show, PastOf(w, a), cache.at[a])
  {
    var put := w.cache.Put(acpId, entry);
    var cache := AfterLoad(w.cache, acpId, entry);
    PutValid(w.cache, acpId, entry);
    EvictShape(put, MAX_VIEWER_STATE_CACHE_ENTRIES);
    forall a | a in cache.at ensures Genuine(show, PastOf(w, a), cache.at[a]) {
      assert a in put.at && cache.at[a] == put.at[a];
      if a != acpId { assert Genuine(show, PastOf(w, a), w.cache.at[a]); }
    }
  }

  lemma LoadKeepsInv(show: Record -> Entry, w: World, id: nat)
    requires Views(show, w) && ShowsVersion(show) && id in w.readers && w.readers[id].Loaded?
    ensures Views(show, Show(show, w, id))
  {
    var r := w.readers[id];
    assert GenuineReader(show, PastOf(w, r.acpId), r);
    var entry := show(r.record);
    assert Genuine(show, PastOf(w, r.acpId), entry);
    LoadedCache(show, w, r.acpId, entry);
    CacheMoves(show, w, AfterLoad(w.cache, r.acpId, entry));
    ReaderMoves(show, w.(cache := AfterLoad(w.cache, r.acpId, entry)), id, Served(r.acpId, entry, r.record));
  }

  lemma RowWasThere(show: Record -> Entry, w: World, acpId: string)
    requires Views(show, w) && SiteAt(w.sites, acpId).record.Some?
    ensures WasThere(PastOf(w, acpId), SiteAt(w.sites, acpId).record.value)
  {
    assert Remembers(SiteAt(w.sites, acpId).record, PastOf(w, acpId));
  }

  lemma StartKeepsInv(show: Record -> Entry, w: World, id: nat, acpId: string)
    requires Views(show, w)
    ensures Views(show, Start(w, id, acpId))
  {
    ReaderMoves(show, w, id, if w.cache.Has(acpId) then Checking(acpId, w.cache.at[acpId]) else Loading(acpId));
  }

  lemma AskKeepsInv(show: Record -> Entry, w: World, id: nat)
    requires Views(show, w) && id in w.readers && w.readers[id].Checking?
    ensures Views(show, Ask(w, id))
  {
    var r := w.readers[id];
    var row := SiteAt(w.sites, r.acpId).record;
    assert GenuineReader(show, PastOf(w, r.acpId), r);
    if row.Some? { RowWasThere(show, w, r.acpId); }
    ReaderMoves(show, w, id, Checked(r.acpId, r.cached, row));
  }

  lemma FetchedKeepsInv(show: Record -> Entry, w: World, id: nat, acpId: string)
    requires Views(show, w)
    ensures Views(show, Fetched(w, id, acpId))
  {
    match SiteAt(w.sites, acpId).record
    case None => ReaderMoves(show, w, id, Failed(acpId));
    case Some(r) =>
      RowWasThere(show, w, acpId);
      ReaderMoves(show, w, id, Loaded(acpId, r));
  }

  // ------------------------------------------------------------------------------ runs

  lemma StepKeepsViews(env: Env, show: Record -> Entry, w: World, e: Event)
    requires SitesInOrder(env, w) && Views(show, w) && ShowsVersion(show)
    ensures SitesInOrder(env, Step(env, show, w, e)) && Views(show, Step(env, show, w, e))
  {
    match e
    case Begin(id, acpId) => StartKeepsInv(show, w, id, acpId);
    case ReadVersion(id) => if id in w.readers && w.readers[id].Checking? { AskKeepsInv(show, w, id); }
    case FinishCheck(id) => if id in w.readers && w.readers[id].Checked? { CheckKeepsInv(show, w, id); }
    case ReadState(id, columns) =>
      if id in w.readers && w.readers[id].Loading? {
        EnsureKeepsInv(env, show, w, w.readers[id].acpId, columns);
        FetchedKeepsInv(show, Ensure(env, w, w.readers[id].acpId, columns), id, w.readers[id].acpId);
      }
    case FinishLoad(id) => if id in w.readers && w.readers[id].Loaded? { LoadKeepsInv(show, w, id); }
    case Initialize(acpId, columns) => EnsureKeepsInv(env, show, w, acpId, columns);
    case Write(acpId, request) => WriteKeepsInv(env, show, w, acpId, request);
  }

  /** Every served view shows its row. */
  ghost predicate ServedRows(show: Record -> Entry, w: World) {
    forall id :: id in w.readers && w.readers[id].Served? ==> w.readers[id].entry == show(w.readers[id].row)
  }

  lemma ViewsAreServed(show: Record -> Entry, w: World)
    requires Views(show, w)
    ensures ServedRows(show, w)
  {
    forall id | id in w.readers && w.readers[id].Served? ensures w.readers[id].entry == show(w.readers[id].row) {
      assert GenuineReader(show, PastOf(w, w.readers[id].acpId), w.readers[id]);
    }
  }

  lemma {:induction false} RunsKeepViews(env: Env, w: World, events: seq<Event>)
    requires Begins(w)
    ensures SitesInOrder(env, RunEvents(env, w, events)) && Views(View(env), RunEvents(env, w, events))
  {
    if events != [] {
      RunsKeepViews(env, w, events[..|events| - 1]);
      StepKeepsViews(env, View(env), RunEvents(env, w, events[..|events| - 1]), events[|events| - 1]);
    }
  }

  /** Every reader that is served is shown the row it asked for. */
  ghost predicate ServedAsStored(env: Env, w: World) {
    forall id :: id in w.readers && w.readers[id].Served? ==> Shows(env, w.readers[id].row, w.readers[id].entry)
  }

  /** In every interleaving, a viewer is served the normalised states of the row that the database
      held when it was last asked: at the version check if the cache was hit, else at the load. */
  lemma EveryViewIsGenuine(env: Env, w: World, events: seq<Event>)
    requires Begins(w)
    ensures SitesInOrder(env, RunEvents(env, w, events)) && RowsRemembered(RunEvents(env, w, events))
    ensures ServedAsStored(env, RunEvents(env, w, events))
  {
    var after := RunEvents(env, w, events);
    RunsKeepViews(env, w, events);
    ViewsAreServed(View(env), after);
    forall id | id in after.readers && after.readers[id].Served? ensures Shows(env, after.readers[id].row, after.readers[id].entry) {
      assert after.readers[id].entry == View(env)(after.readers[id].row);
    }
  }

  // ----------------------------------------------------------- what drafts do not disclose

  /** Who may not edit is shown what is published and nothing of the draft; who may edit is shown
      the draft, beside what is published. */
  lemma EnvelopesDisclose(env: Env, r: Record, e: Entry, canEdit: bool)
    requires Shows(env, r, e)
    ensures var a, shown := EnvelopeOf(e, canEdit), Normalized(env, if canEdit then r.draft else r.published);
      && a.activeState == shown && a.draftState == shown && a.publishedState == Normalized(env, r.published)
      && a.canEdit == canEdit && a.canPublish == canEdit
      && a.status == r.status && a.version == r.version && a.publishedVersion == r.publishedVersion && a.updatedBy == r.updatedBy
  {
  }

  /** Two rows that differ only in what is drafted look the same to viewers. */
  lemma DraftsAreNotDisclosed(env: Env, r: Record, draft: Payload, e: Entry, e': Entry)
    requires Shows(env, r, e) && Shows(env, r.(draft := draft), e')
    ensures EnvelopeOf(e, false) == EnvelopeOf(e', false)
  {
  }

  /** While nothing is drafted, viewers and editors are shown the same. */
  lemma CleanStatesAreShownToAll(env: Env, r: Record, e: Entry)
    requires Consistent(env, r) && r.status == Clean && Shows(env, r, e)
    ensures EnvelopeOf(e, true) == EnvelopeOf(e, false).(canEdit := true, canPublish := true)
  {
    CleanShowsPublished(env, r);
  }

  ghost predicate NothingPublished(events: seq<Event>, acpId: string) {
    forall i :: 0 <= i < |events| && events[i].Write? && events[i].acpId == acpId ==> !Publishes(events[i].request.change)
  }

  /** What a reader has got from the database. */
  function RowSeen(r: Reader): Option<Record> {
    match r
    case Checked(_, _, found) => found
    case Loaded(_, record) => Some(record)
    case Served(_, _, row) => Some(row)
    case _ => None
  }

  /** The ACP has a row which publishes `p`; so does every row that readers of the ACP other than
      `before` have got. */
  ghost predicate Publicly(w: World, acpId: string, p: Payload, before: set<nat>) {
    && SiteAt(w.sites, acpId).record.Some? && SiteAt(w.sites, acpId).record.value.published == p
    && (forall id :: id in before ==> id in w.readers)
    && forall id :: id in w.readers && id !in before && w.readers[id].acpId == acpId && RowSeen(w.readers[id]).Some? ==>
         RowSeen(w.readers[id]).value.published == p
  }

  lemma DraftWritesStayUnpublished(env: Env, site: Site, q: Request)
    requires Inv(env, site) && site.record.Some? && !Publishes(q.change)
    ensures var after := Locked(env, site, q).0; after.record.Some? && after.record.value.published == site.record.value.published
  {
    LockedIsExact(env, site, q);
  }

  lemma SiteStaysPublic(w: World, other: string, site: Site, acpId: string, p: Payload, before: set<nat>)
    requires Publicly(w, acpId, p, before)
    requires other == acpId ==> site.record.Some? && site.record.value.published == p
    ensures Publicly(WithSite(w, other, site), acpId, p, before)
  {
  }

  lemma ReaderStaysPublic(w: World, id: nat, r: Reader, acpId: string, p: Payload, before: set<nat>)
    requires Publicly(w, acpId, p, before)
    requires r.acpId == acpId && id !in before && RowSeen(r).Some? ==> RowSeen(r).value.published == p
    ensures Publicly(WithReader(w, id, r), acpId, p, before)
  {
    var w' := WithReader(w, id, r);
    assert w'.sites == w.sites;
    forall i | i in w'.readers && i !in before && w'.readers[i].acpId == acpId && RowSeen(w'.readers[i]).Some?
      ensures RowSeen(w'.readers[i]).value.published == p
    {
      if i != id { assert w'.readers[i] == w.readers[i]; }
    }
  }

  lemma FetchStaysPublic(env: Env, w: World, id: nat, columns: RawColumns, acpId: string, p: Payload, before: set<nat>)
    requires Publicly(w, acpId, p, before) && id in w.readers && w.readers[id].Loading?
    ensures Publicly(Fetch(env, w, id, columns), acpId, p, before)
  {
    var other := w.readers[id].acpId;
    var ready := Ensure(env, w, other, columns);
    SiteStaysPublic(w, other, Ensured(env, SiteAt(w.sites, other), columns), acpId, p, before);
    match SiteAt(ready.sites, other).record
    case None => ReaderStaysPublic(ready, id, Failed(other), acpId, p, before);
    case Some(r) => ReaderStaysPublic(ready, id, Loaded(other, r), acpId, p, before);
  }

  lemma CheckStaysPublic(w: World, id: nat, acpId: string, p: Payload, before: set<nat>)
    requires Publicly(w, acpId, p, before) && id in w.readers && w.readers[id].Checked?
    ensures Publicly(Check(w, id), acpId, p, before)
  {
    var r := w.readers[id];
    var moved := w.(cache := AfterCheck(w.cache, r.acpId, r.cached, r.found));
    assert moved.sites == w.sites && moved.readers == w.readers;
    assert r.acpId == acpId && id !in before && RowSeen(r).Some? ==> RowSeen(r).value.published == p;
    if SameVersions(r.cached, r.found) {
      ReaderStaysPublic(moved, id, Served(r.acpId, r.cached, r.found.value), acpId, p, before);
    } else {
      ReaderStaysPublic(moved, id, Loading(r.acpId), acpId, p, before);
    }
  }

  lemma ShowStaysPublic(show: Record -> Entry, w: World, id: nat, acpId: string, p: Payload, before: set<nat>)
    requires Publicly(w, acpId, p, before) && id in w.readers && w.readers[id].Loaded?
    ensures Publicly(Show(show, w, id), acpId, p, before)
  {
    var r := w.readers[id];
    var moved := w.(cache := AfterLoad(w.cache, r.acpId, show(r.record)));
    assert moved.sites == w.sites && moved.readers == w.readers;
    assert RowSeen(r) == Some(r.record);
    ReaderStaysPublic(moved, id, Served(r.acpId, show(r.record), r.record), acpId, p, before);
  }

  lemma StepStaysPublic(env: Env, show: Record -> Entry, w: World, e: Event, acpId: string, p: Payload, before: set<nat>)
    requires SitesInOrder(env, w) && Publicly(w, acpId, p, before)
    requires e.Write? && e.acpId == acpId ==> !Publishes(e.request.change)
    ensures Publicly(Step(env, show, w, e), acpId, p, before)
  {
    match e
    case Begin(id, other) =>
      if id !in w.readers {
        ReaderStaysPublic(w, id, if w.cache.Has(other) then Checking(other, w.cache.at[other]) else Loading(other), acpId, p, before);
      }
    case ReadVersion(id) =>
      if id in w.readers && w.readers[id].Checking? {
        var r := w.readers[id];
        ReaderStaysPublic(w, id, Checked(r.acpId, r.cached, SiteAt(w.sites, r.acpId).record), acpId, p, before);
      }
    case FinishCheck(id) => if id in w.readers && w.readers[id].Checked? { CheckStaysPublic(w, id, acpId, p, before); }
    case ReadState(id, columns) => if id in w.readers && w.readers[id].Loading? { FetchStaysPublic(env, w, id, columns, acpId, p, before); }
    case FinishLoad(id) => if id in w.readers && w.readers[id].Loaded? { ShowStaysPublic(show, w, id, acpId, p, before); }
    case Initialize(other, columns) => SiteStaysPublic(w, other, Ensured(env, SiteAt(w.sites, other), columns), acpId, p, before);
    case Write(other, q) =>
      assert Inv(env, SiteAt(w.sites, other));
      if other == acpId { DraftWritesStayUnpublished(env, SiteAt(w.sites, acpId), q); }
      SiteStaysPublic(w, other, Locked(env, SiteAt(w.sites, other), q).0, acpId, p, before);
  }

  lemma {:induction false} RunStaysPublic(env: Env, w: World, events: seq<Event>, acpId: string, p: Payload, before: set<nat>)
    requires SitesInOrder(env, w) && Views(View(env), w) && Publicly(w, acpId, p, before) && NothingPublished(events, acpId)
    ensures var after := RunEvents(env, w, events); SitesInOrder(env, after) && Views(View(env), after) && Publicly(after, acpId, p, before)
  {
    if events != [] {
      var n := |events| - 1;
      RunStaysPublic(env, w, events[..n], acpId, p, before);
      StepKeepsViews(env, View(env), RunEvents(env, w, events[..n]), events[n]);
      StepStaysPublic(env, View(env), RunEvents(env, w, events[..n]), events[n], acpId, p, before);
    }
  }

  /** Until the next publication every viewer who comes is shown what is published now, in whatever
      order others patch and discard drafts, read and fill the cache meanwhile. */
  lemma DraftsAreNotServed(env: Env, w: World, events: seq<Event>, acpId: string, id: nat)
    requires SitesInOrder(env, w) && Views(View(env), w) && SiteAt(w.sites, acpId).record.Some? && NothingPublished(events, acpId)
    requires var after := RunEvents(env, w, events);
      id !in w.readers && id in after.readers && after.readers[id].Served? && after.readers[id].acpId == acpId
    ensures var shown := Normalized(env, SiteAt(w.sites, acpId).record.value.published);
      var a := EnvelopeOf(RunEvents(env, w, events).readers[id].entry, false);
      a.activeState == shown && a.publishedState == shown && a.draftState == shown
  {
    var p, after := SiteAt(w.sites, acpId).record.value.published, RunEvents(env, w, events);
    var before := w.readers.Keys;
    assert Publicly(w, acpId, p, before);
    RunStaysPublic(env, w, events, acpId, p, before);
    ViewsAreServed(View(env), after);
    assert RowSeen(after.readers[id]) == Some(after.readers[id].row);
    assert after.readers[id].entry == View(env)(after.readers[id].row);
  }

  /** What a hit compares with is the row of that very moment. */
  lemma ChecksTheCurrentRow(env: Env, w: World, id: nat)
    requires id in w.readers && w.readers[id].Checking?
    ensures var r := Step(env, View(env), w, ReadVersion(id)).readers[id];
      r.Checked? && r.found == SiteAt(w.sites, w.readers[id].acpId).record
  {
  }
}
