/** backend/src/item-explorer/item-explorer-state.service.ts: the shared state of one ACP's
    Item Explorer, with a draft, a published version and a change log. */
module ItemExplorerState {
  import opened ExplorerNormalizers
  import opened JsObjects
  import opened Outcomes
  import opened Text

  datatype Status = Clean | Dirty

  datatype Actor = Actor(username: Option<string>, role: Option<string>)

  /** A row of the state table. */
  datatype Record = Record(published: Payload, draft: Payload, status: Status, version: nat, publishedVersion: nat, updatedBy: Actor)

  /** The names under which changes are logged; a caller may choose its own. */
  datatype ChangeType = PATCH_DRAFT | SAVE_DRAFT | DISCARD_DRAFT | REPLACE_ITEM_TAGS | Named(name: string)

  datatype LogEntry = LogEntry(changeType: ChangeType, before: Payload, after: Payload, draftVersion: nat, publishedVersion: nat, actor: Actor)

  /** The rows of one ACP: its item properties, its state and its change log. */
  datatype Site = Site(acp: Option<Json>, record: Option<Record>, log: seq<LogEntry>)

  datatype Refusal = NotFound | VersionConflict(expected: int, current: nat) | DraftPending

  // --------------------------------------------------------------------- the first state

  function DefaultTagEntry(env: Env): (string, Properties) -> Option<(string, seq<string>)> {
    (k: string, e: Properties) =>
      var tags := Labels(env, Prop(e, "tags"));
      if tags == [] then None else Some((k, tags))
  }

  /** `buildDefaultState`; `columns` is what the access configuration holds. */
  function DefaultState(env: Env, itemProperties: Json, columns: RawColumns): Payload {
    var items := ItemsOf(env, itemProperties);
    Payload([], Collect(items, DefaultTagEntry(env)), ColumnsOf(env, columns), [], items)
  }

  /** `ensureStateRecord` */
  function Ensured(env: Env, site: Site, columns: RawColumns): Site {
    if site.record.Some? || site.acp == None then site
    else
      var state := DefaultState(env, site.acp.value, columns);
      site.(record := Some(Record(state, state, Clean, 1, 1, Actor(None, None))))
  }

  // ------------------------------------------------------------------------------ patches

  datatype Patch = Patch(ui: Json, tags: Json, columns: Option<RawColumns>, itemOrder: Json, itemProperties: Json, itemPropertiesPatch: Json)

  function PropsAt(t: ItemTable, k: string): Properties {
    match Lookup(t, k)
    case None => []
    case Some(e) => e
  }

  function PatchItem(t: ItemTable, k: string, v: Json): ItemTable {
    var key := Trim(k);
    if key == "" then t
    else if v == Null then Remove(t, key)
    else
      var next := Merge(PropsAt(t, key), AsRecord(v));
      if next == [] then Remove(t, key) else Set(t, key, next)
  }

  function PatchItems(t: ItemTable, e: Properties): ItemTable {
    if e == [] then t else PatchItem(PatchItems(t, e[..|e| - 1]), e[|e| - 1].0, e[|e| - 1].1)
  }

  method ApplyItemPatch(t: ItemTable, e: Properties) returns (merged: ItemTable)
    ensures merged == PatchItems(t, e)
  {
    merged := t;
    for i := 0 to |e|
      invariant merged == PatchItems(t, e[..i])
    {
      assert e[..i + 1][..i] == e[..i];
      var key := Trim(e[i].0);
      if key == "" { continue; }
      if e[i].1 == Null {
        merged := Remove(merged, key);
        continue;
      }
      var next := Merge(PropsAt(merged, key), AsRecord(e[i].1));
      if next == [] { merged := Remove(merged, key); } else { merged := Set(merged, key, next); }
    }
    assert e[..|e|] == e;
  }

  function MergedColumns(env: Env, current: Columns, patch: Option<RawColumns>): Columns {
    match patch
    case None => current.(layout := LayoutOf(env, RawLayoutOf(current.layout)))
    case Some(raw) =>
      var restricted := if raw.restricted == Undefined || raw.restricted == Null then Bool(current.restricted) else raw.restricted;
      ColumnsOf(env, raw.(restricted := restricted))
  }

  /** `mergeDraftPatch`; `current` has been normalised. */
  function Merged(env: Env, current: Payload, patch: Patch): Payload {
    var items := if patch.itemProperties != Undefined then ItemsOf(env, patch.itemProperties) else ItemsOf(env, RawItems(current.itemProperties));
    Payload(
      if patch.ui.Obj? then Merge(current.ui, patch.ui.entries) else current.ui,
      if patch.tags != Undefined then TagsOf(env, patch.tags) else TagsOf(env, RawTags(current.tags)),
      MergedColumns(env, current.columns, patch.columns),
      if patch.itemOrder != Undefined then Labels(env, patch.itemOrder) else current.itemOrder,
      if patch.itemPropertiesPatch.Obj? then ItemsOf(env, RawItems(PatchItems(items, patch.itemPropertiesPatch.entries))) else items)
  }

  method MergeDraftPatch(env: Env, current: Payload, patch: Patch) returns (merged: Payload)
    ensures merged == Merged(env, current, patch)
  {
    var tags := NormalizeTags(env, RawTags(current.tags));
    var items := NormalizeItemProperties(env, RawItems(current.itemProperties));
    merged := Payload(current.ui, tags, MergedColumns(env, current.columns, patch.columns), current.itemOrder, items);
    if patch.ui.Obj? { merged := merged.(ui := Merge(merged.ui, patch.ui.entries)); }
    if patch.tags != Undefined {
      tags := NormalizeTags(env, patch.tags);
      merged := merged.(tags := tags);
    }
    if patch.itemOrder != Undefined { merged := merged.(itemOrder := Labels(env, patch.itemOrder)); }
    if patch.itemProperties != Undefined {
      items := NormalizeItemProperties(env, patch.itemProperties);
      merged := merged.(itemProperties := items);
    }
    if patch.itemPropertiesPatch.Obj? {
      items := ApplyItemPatch(merged.itemProperties, patch.itemPropertiesPatch.entries);
      items := NormalizeItemProperties(env, RawItems(items));
      merged := merged.(itemProperties := items);
    }
  }

  // ---------------------------------------------------------------------- publishing tags

  /** The items without their tags; items with nothing else are gone. */
  function Untagged(t: ItemTable): ItemTable {
    if t == [] then []
    else
      var (k, e) := t[|t| - 1];
      Untagged(t[..|t| - 1]) + if Remove(e, "tags") == [] then [] else [(k, Remove(e, "tags"))]
  }

  function Tagged(t: ItemTable, tags: Tags): ItemTable {
    if tags == [] then t
    else
      var rest, k, v := Tagged(t, tags[..|tags| - 1]), tags[|tags| - 1].0, tags[|tags| - 1].1;
      Set(rest, k, Set(PropsAt(rest, k), "tags", Strings(v)))
  }

  function WithTags(env: Env, before: Payload, raw: Json): Payload {
    var tags := TagsOf(env, raw);
    before.(tags := tags, itemProperties := ItemsOf(env, RawItems(Tagged(Untagged(ItemsOf(env, RawItems(before.itemProperties))), tags))))
  }

  // ------------------------------------------------------------------------- the mutators

  datatype Change =
    | PatchDraft(patch: Patch, patchType: Option<string>)
    | SaveDraft
    | DiscardDraft
    | PublishItemProperties(itemProperties: Json, propertiesType: string)
    | PublishTags(tags: Json, tagsType: Option<string>)

  datatype Request = Request(change: Change, actor: Actor, baseVersion: Option<int>)

  predicate Publishes(c: Change) { c.SaveDraft? || c.PublishItemProperties? || c.PublishTags? }

  function OrElse(t: Option<string>, default: ChangeType): ChangeType {
    if t.Some? && t.value != "" then Named(t.value) else default
  }

  /** `assertVersion` */
  function Conflict(r: Record, baseVersion: Option<int>): Option<Refusal> {
    if baseVersion.Some? && baseVersion.value != r.version then Some(VersionConflict(baseVersion.value, r.version)) else None
  }

  /** The direct changes refuse a pending draft before they look at the version. */
  function DirectConflict(r: Record, baseVersion: Option<int>): Option<Refusal> {
    if r.status == Dirty then Some(DraftPending) else Conflict(r, baseVersion)
  }

  /** A new draft is saved and logged. */
  function Edited(site: Site, before: Payload, draft: Payload, status: Status, t: ChangeType, actor: Actor): Site
    requires site.record.Some?
  {
    var r := site.record.value;
    Site(site.acp, Some(Record(r.published, draft, status, r.version + 1, r.publishedVersion, actor)),
         site.log + [LogEntry(t, before, draft, r.version + 1, r.publishedVersion, actor)])
  }

  /** A new published state is saved and logged; its item properties go to the ACP, and the change
      is undone when there is none. */
  function Published(env: Env, site: Site, before: Payload, next: Payload, t: ChangeType, actor: Actor): (Site, Option<Refusal>)
    requires site.record.Some?
  {
    var r := site.record.value;
    if site.acp == None then (site, Some(NotFound))
    else
      (Site(Some(RawItems(ItemsOf(env, RawItems(next.itemProperties)))),
            Some(Record(next, next, Clean, r.version + 1, r.publishedVersion + 1, actor)),
            site.log + [LogEntry(t, before, next, r.version + 1, r.publishedVersion + 1, actor)]),
       None)
  }

  function Patched(env: Env, site: Site, patch: Patch, t: Option<string>, actor: Actor, baseVersion: Option<int>): (Site, Option<Refusal>)
    requires site.record.Some?
  {
    var r := site.record.value;
    if Conflict(r, baseVersion).Some? then (site, Conflict(r, baseVersion))
    else
      var before := Normalized(env, r.draft);
      var draft := Merged(env, before, patch);
      (Edited(site, before, draft, if draft == Normalized(env, r.published) then Clean else Dirty, OrElse(t, PATCH_DRAFT), actor), None)
  }

  function Discarded(env: Env, site: Site, actor: Actor, baseVersion: Option<int>): (Site, Option<Refusal>)
    requires site.record.Some?
  {
    var r := site.record.value;
    if Conflict(r, baseVersion).Some? then (site, Conflict(r, baseVersion))
    else (Edited(site, Normalized(env, r.draft), Normalized(env, r.published), Clean, DISCARD_DRAFT, actor), None)
  }

  function Saved(env: Env, site: Site, actor: Actor, baseVersion: Option<int>): (Site, Option<Refusal>)
    requires site.record.Some?
  {
    var r := site.record.value;
    if Conflict(r, baseVersion).Some? then (site, Conflict(r, baseVersion))
    else Published(env, site, Normalized(env, r.published), Normalized(env, r.draft), SAVE_DRAFT, actor)
  }

  function PropertiesPublished(env: Env, site: Site, raw: Json, t: string, actor: Actor, baseVersion: Option<int>): (Site, Option<Refusal>)
    requires site.record.Some?
  {
    var r := site.record.value;
    if DirectConflict(r, baseVersion).Some? then (site, DirectConflict(r, baseVersion))
    else
      var before := Normalized(env, r.published);
      Published(env, site, before, before.(itemProperties := ItemsOf(env, raw)), Named(t), actor)
  }

  function TagsPublished(env: Env, site: Site, raw: Json, t: Option<string>, actor: Actor, baseVersion: Option<int>): (Site, Option<Refusal>)
    requires site.record.Some?
  {
    var r := site.record.value;
    if DirectConflict(r, baseVersion).Some? then (site, DirectConflict(r, baseVersion))
    else
      var before := Normalized(env, r.published);
      Published(env, site, before, WithTags(env, before, raw), OrElse(t, REPLACE_ITEM_TAGS), actor)
  }

  /** The transaction that holds the lock of the state row: the change is made or nothing is. */
  function Locked(env: Env, site: Site, q: Request): (Site, Option<Refusal>) {
    if site.record == None then (site, Some(NotFound))
    else
      match q.change
      case PatchDraft(patch, t) => Patched(env, site, patch, t, q.actor, q.baseVersion)
      case DiscardDraft => Discarded(env, site, q.actor, q.baseVersion)
      case SaveDraft => Saved(env, site, q.actor, q.baseVersion)
      case PublishItemProperties(raw, t) => PropertiesPublished(env, site, raw, t, q.actor, q.baseVersion)
      case PublishTags(raw, t) => TagsPublished(env, site, raw, t, q.actor, q.baseVersion)
  }

  /** One call: the first state is created in a transaction of its own. */
  function Apply(env: Env, site: Site, columns: RawColumns, q: Request): (Site, Option<Refusal>) {
    Locked(env, Ensured(env, site, columns), q)
  }

  // -------------------------------------------------------------------------- the invariant

  /** Entry `i` was logged by a change that published. */
  ghost predicate Publishing(log: seq<LogEntry>, i: nat)
    requires i < |log|
  {
    log[i].publishedVersion > if i == 0 then 1 else log[i - 1].publishedVersion
  }

  /** The after-state of the last publishing entry. */
  ghost function LastPublished(log: seq<LogEntry>): Option<Payload> {
    if log == [] then None
    else if Publishing(log, |log| - 1) then Some(log[|log| - 1].after)
    else LastPublished(log[..|log| - 1])
  }

  ghost function PublishingEntries(log: seq<LogEntry>): nat {
    if log == [] then 0 else PublishingEntries(log[..|log| - 1]) + if Publishing(log, |log| - 1) then 1 else 0
  }

  /** The log counts the versions up and tells where the state comes from. */
  ghost predicate LogAgrees(r: Record, log: seq<LogEntry>) {
    && r.version == 1 + |log| && r.publishedVersion == 1 + PublishingEntries(log)
    && (forall i :: 0 <= i < |log| ==> log[i].draftVersion == i + 2)
    && (log != [] ==> log[|log| - 1].after == r.draft && log[|log| - 1].publishedVersion == r.publishedVersion)
    && (LastPublished(log).Some? ==> LastPublished(log).value == r.published)
    && (log == [] ==> r.draft == r.published && r.status == Clean)
  }

  ghost predicate Consistent(env: Env, r: Record) {
    && Tidy(env, r.draft) && Tidy(env, r.published)
    && 1 <= r.publishedVersion <= r.version
    && (r.status == Clean ==> r.draft == r.published || r.draft == Normalized(env, r.published))
  }

  ghost predicate Inv(env: Env, site: Site) {
    match site.record
    case None => site.log == []
    case Some(r) =>
      && Consistent(env, r) && LogAgrees(r, site.log)
      && site.acp.Some? && ItemsOf(env, site.acp.value) == r.published.itemProperties
  }

  // ------------------------------------------------------------ every new draft is in order

  lemma DefaultTidy(env: Env, itemProperties: Json, columns: RawColumns)
    ensures Tidy(env, DefaultState(env, itemProperties, columns))
  {
    var items := ItemsOf(env, itemProperties);
    ItemsShape(env, itemProperties);
    ColumnsShape(env, columns);
    var tags := Collect(items, DefaultTagEntry(env));
    DefaultTags(env, items);
  }

  lemma {:induction false} DefaultTags(env: Env, t: ItemTable)
    requires AreItems(env, t)
    ensures AreTags(Collect(t, DefaultTagEntry(env)))
  {
    if t != [] {
      var rest, k, e := t[..|t| - 1], t[|t| - 1].0, t[|t| - 1].1;
      assert IsItem(env)(k, e);
      DefaultTags(env, rest);
      JsonLabels(env, Prop(e, "tags"));
      var q := DefaultTagEntry(env)(k, e);
      if q.Some? { SetShape(Collect(rest, DefaultTagEntry(env)), q.value.0, q.value.1); }
    }
  }

  lemma MergedColumnsShape(env: Env, current: Columns, patch: Option<RawColumns>)
    requires AreColumns(current)
    ensures AreColumns(MergedColumns(env, current, patch))
  {
    match patch
    case None => LayoutShape(env, RawLayoutOf(current.layout));
    case Some(raw) =>
      var restricted := if raw.restricted == Undefined || raw.restricted == Null then Bool(current.restricted) else raw.restricted;
      ColumnsShape(env, raw.(restricted := restricted));
  }

  lemma MergedTidy(env: Env, current: Payload, patch: Patch)
    requires Tidy(env, current)
    ensures Tidy(env, Merged(env, current, patch))
  {
    var items := if patch.itemProperties != Undefined then ItemsOf(env, patch.itemProperties) else ItemsOf(env, RawItems(current.itemProperties));
    MergedColumnsShape(env, current.columns, patch.columns);
    TagsShape(env, if patch.tags != Undefined then patch.tags else RawTags(current.tags));
    JsonLabels(env, patch.itemOrder);
    ItemsShape(env, if patch.itemProperties != Undefined then patch.itemProperties else RawItems(current.itemProperties));
    if patch.itemPropertiesPatch.Obj? {
      ItemsShape(env, RawItems(PatchItems(items, patch.itemPropertiesPatch.entries)));
    }
  }

  lemma WithTagsTidy(env: Env, before: Payload, raw: Json)
    requires Tidy(env, before)
    ensures Tidy(env, WithTags(env, before, raw))
  {
    TagsShape(env, raw);
    ItemsShape(env, RawItems(Tagged(Untagged(ItemsOf(env, RawItems(before.itemProperties))), TagsOf(env, raw))));
  }

  lemma {:induction false} DefaultTagsAre(env: Env, t: ItemTable, k: string)
    requires AreItems(env, t)
    ensures Lookup(Collect(t, DefaultTagEntry(env)), k) ==
      match Lookup(t, k) {
        case None => None
        case Some(e) => if Labels(env, Prop(e, "tags")) == [] then None else Some(Labels(env, Prop(e, "tags")))
      }
  {
    if t != [] {
      var n := |t| - 1;
      var rest, key, e := t[..n], t[n].0, t[n].1;
      assert All(rest, IsItem(env));
      DefaultTagsAre(env, rest, k);
      LookupSet(Collect(rest, DefaultTagEntry(env)), key, Labels(env, Prop(e, "tags")), k);
      LookupFinds(rest, key);
      if key == k { LookupAt(t, n); } else { LookupPrefix(t, k); }
    }
  }

  lemma LookupPrefix<V>(t: seq<(string, V)>, k: string)
    requires Unique(t) && t != [] && t[|t| - 1].0 != k
    ensures Lookup(t, k) == Lookup(t[..|t| - 1], k)
  {
    LookupFinds(t, k);
    LookupFinds(t[..|t| - 1], k);
    if Lookup(t, k).Some? {
      var i :| 0 <= i < |t| && t[i] == (k, Lookup(t, k).value);
      assert t[..|t| - 1][i] == t[i];
      LookupAt(t[..|t| - 1], i);
    }
  }

  /** The first state is clean; it has the items of the ACP, the tags that they have, and the columns of
      the access configuration. There is one exactly if the ACP is there. */
  lemma FirstStateIs(env: Env, site: Site, columns: RawColumns, k: string)
    requires site.record == None
    ensures Ensured(env, site, columns).record.Some? <==> site.acp.Some?
    ensures Ensured(env, site, columns).acp == site.acp && Ensured(env, site, columns).log == site.log
    ensures site.acp.Some? ==>
      var r := Ensured(env, site, columns).record.value;
      && r.draft == r.published && r.status == Clean && r.version == 1 && r.publishedVersion == 1
      && r.draft.itemProperties == ItemsOf(env, site.acp.value) && r.draft.columns == ColumnsOf(env, columns)
      && r.draft.ui == [] && r.draft.itemOrder == []
      && Lookup(r.draft.tags, k) ==
           (var tags := Labels(env, Prop(PropsAt(r.draft.itemProperties, k), "tags")); if tags == [] then None else Some(tags))
  {
    if site.acp.Some? {
      ItemsShape(env, site.acp.value);
      DefaultTagsAre(env, ItemsOf(env, site.acp.value), k);
    }
  }

  // ------------------------------------------------------------------ one call keeps the invariant

  lemma EnsuredKeepsInv(env: Env, site: Site, columns: RawColumns)
    requires Inv(env, site)
    ensures Inv(env, Ensured(env, site, columns))
  {
    if site.acp.Some? { DefaultTidy(env, site.acp.value, columns); }
  }

  lemma OneMoreEntry(log: seq<LogEntry>, e: LogEntry)
    ensures LastPublished(log + [e]) == if Publishing(log + [e], |log|) then Some(e.after) else LastPublished(log)
    ensures PublishingEntries(log + [e]) == PublishingEntries(log) + if Publishing(log + [e], |log|) then 1 else 0
  {
    assert (log + [e])[..|log|] == log;
  }

  /** The log after one more entry, whose after-state is the new draft. */
  lemma LogGrows(r: Record, log: seq<LogEntry>, e: LogEntry, r': Record)
    requires LogAgrees(r, log) && e.after == r'.draft && e.draftVersion == r'.version == r.version + 1 && e.publishedVersion == r'.publishedVersion
    requires if e.publishedVersion == r.publishedVersion then r'.published == r.published
             else e.publishedVersion == r.publishedVersion + 1 && r'.published == r'.draft
    ensures LogAgrees(r', log + [e])
  {
    OneMoreEntry(log, e);
    assert log == [] ==> PublishingEntries(log) == 0;
  }

  lemma EditedKeepsInv(env: Env, site: Site, before: Payload, draft: Payload, status: Status, t: ChangeType, actor: Actor, after: Site)
    requires Inv(env, site) && site.record.Some? && Tidy(env, draft) && after == Edited(site, before, draft, status, t, actor)
    requires status == Clean ==> draft == Normalized(env, site.record.value.published)
    ensures Inv(env, after)
  {
    var r := site.record.value;
    LogGrows(r, site.log, LogEntry(t, before, draft, r.version + 1, r.publishedVersion, actor),
             Record(r.published, draft, status, r.version + 1, r.publishedVersion, actor));
  }

  /** The items that a publication writes are read as they are. */
  lemma PublishedItems(env: Env, next: Payload, acp: Json)
    requires Tidy(env, next) && acp == RawItems(ItemsOf(env, RawItems(next.itemProperties)))
    ensures ItemsOf(env, acp) == next.itemProperties
  {
    ItemsKept(env, next.itemProperties);
  }

  lemma PublishedKeepsInv(env: Env, site: Site, before: Payload, next: Payload, t: ChangeType, actor: Actor, after: Site)
    requires Inv(env, site) && site.record.Some? && Tidy(env, next)
    requires after == Published(env, site, before, next, t, actor).0
    ensures Inv(env, after)
  {
    if site.acp.Some? {
      var r := site.record.value;
      LogGrows(r, site.log, LogEntry(t, before, next, r.version + 1, r.publishedVersion + 1, actor), after.record.value);
      PublishedItems(env, next, after.acp.value);
    }
  }

  lemma NormalizedTidy(env: Env, p: Payload)
    ensures Tidy(env, Normalized(env, p))
  {
    NormalizingTidies(env, Stored(p));
  }

  lemma MergedDraftTidy(env: Env, p: Payload, patch: Patch)
    ensures Tidy(env, Merged(env, Normalized(env, p), patch))
  {
    NormalizedTidy(env, p);
    MergedTidy(env, Normalized(env, p), patch);
  }

  lemma PatchedKeepsInv(env: Env, site: Site, patch: Patch, t: Option<string>, actor: Actor, baseVersion: Option<int>, after: Site)
    requires Inv(env, site) && site.record.Some? && after == Patched(env, site, patch, t, actor, baseVersion).0
    ensures Inv(env, after)
  {
    if Conflict(site.record.value, baseVersion) == None {
      var before := Normalized(env, site.record.value.draft);
      var draft := Merged(env, before, patch);
      MergedDraftTidy(env, site.record.value.draft, patch);
      EditedKeepsInv(env, site, before, draft, if draft == Normalized(env, site.record.value.published) then Clean else Dirty, OrElse(t, PATCH_DRAFT), actor, after);
    }
  }

  lemma DiscardedKeepsInv(env: Env, site: Site, actor: Actor, baseVersion: Option<int>, after: Site)
    requires Inv(env, site) && site.record.Some? && after == Discarded(env, site, actor, baseVersion).0
    ensures Inv(env, after)
  {
    var r := site.record.value;
    if Conflict(r, baseVersion) == None {
      NormalizedTidy(env, r.published);
      EditedKeepsInv(env, site, Normalized(env, r.draft), Normalized(env, r.published), Clean, DISCARD_DRAFT, actor, after);
    }
  }

  lemma SavedKeepsInv(env: Env, site: Site, actor: Actor, baseVersion: Option<int>, after: Site)
    requires Inv(env, site) && site.record.Some? && after == Saved(env, site, actor, baseVersion).0
    ensures Inv(env, after)
  {
    if after != site {
      var r := site.record.value;
      NormalizedTidy(env, r.draft);
      PublishedKeepsInv(env, site, Normalized(env, r.published), Normalized(env, r.draft), SAVE_DRAFT, actor, after);
    }
  }

  lemma PropertiesPublishedKeepInv(env: Env, site: Site, raw: Json, t: string, actor: Actor, baseVersion: Option<int>, after: Site)
    requires Inv(env, site) && site.record.Some? && after == PropertiesPublished(env, site, raw, t, actor, baseVersion).0
    ensures Inv(env, after)
  {
    if after != site {
      var before := Normalized(env, site.record.value.published);
      NormalizedTidy(env, site.record.value.published);
      ItemsShape(env, raw);
      PublishedKeepsInv(env, site, before, before.(itemProperties := ItemsOf(env, raw)), Named(t), actor, after);
    }
  }

  lemma TagsPublishedKeepInv(env: Env, site: Site, raw: Json, t: Option<string>, actor: Actor, baseVersion: Option<int>, after: Site)
    requires Inv(env, site) && site.record.Some? && after == TagsPublished(env, site, raw, t, actor, baseVersion).0
    ensures Inv(env, after)
  {
    if after != site {
      var before := Normalized(env, site.record.value.published);
      NormalizedTidy(env, site.record.value.published);
      WithTagsTidy(env, before, raw);
      PublishedKeepsInv(env, site, before, WithTags(env, before, raw), OrElse(t, REPLACE_ITEM_TAGS), actor, after);
    }
  }

  lemma LockedCaseKeepsInv(env: Env, site: Site, q: Request, after: Site)
    requires Inv(env, site) && site.record.Some? && after == Locked(env, site, q).0
    ensures Inv(env, after)
  {
    match q.change
    case PatchDraft(patch, t) => PatchedKeepsInv(env, site, patch, t, q.actor, q.baseVersion, after);
    case DiscardDraft => DiscardedKeepsInv(env, site, q.actor, q.baseVersion, after);
    case SaveDraft => SavedKeepsInv(env, site, q.actor, q.baseVersion, after);
    case PublishItemProperties(raw, t) => PropertiesPublishedKeepInv(env, site, raw, t, q.actor, q.baseVersion, after);
    case PublishTags(raw, t) => TagsPublishedKeepInv(env, site, raw, t, q.actor, q.baseVersion, after);
  }

  lemma LockedKeepsInv(env: Env, site: Site, q: Request)
    requires Inv(env, site)
    ensures Inv(env, Locked(env, site, q).0)
  {
    if site.record.Some? { LockedCaseKeepsInv(env, site, q, Locked(env, site, q).0); }
  }

  /** A call raises the version by one, the published version too if it publishes, and logs once. */
  ghost predicate Counted(before: Site, after: Site, publishes: bool) {
    && before.record.Some? && after.record.Some?
    && after.record.value.version == before.record.value.version + 1
    && after.record.value.publishedVersion == before.record.value.publishedVersion + (if publishes then 1 else 0)
    && (!publishes ==> after.record.value.published == before.record.value.published && after.acp == before.acp)
    && |after.log| == |before.log| + 1 && before.log <= after.log
  }

  /** A request that meets the state as it is: not based on another version, and not a direct
      change while a draft is pending. */
  ghost predicate Admissible(before: Site, q: Request) {
    && before.record.Some?
    && (q.baseVersion.Some? ==> q.baseVersion.value == before.record.value.version)
    && (q.change.PublishItemProperties? || q.change.PublishTags? ==> before.record.value.status == Clean)
  }

  /** An admissible call succeeds and counts; another one changes nothing. */
  ghost predicate Exact(before: Site, outcome: (Site, Option<Refusal>), admissible: bool, publishes: bool) {
    && (outcome.1 == None <==> admissible)
    && if outcome.1 == None then Counted(before, outcome.0, publishes) else outcome.0 == before
  }

  predicate Current(site: Site, baseVersion: Option<int>) {
    site.record.Some? && (baseVersion.Some? ==> baseVersion.value == site.record.value.version)
  }

  lemma PatchedIsExact(env: Env, site: Site, patch: Patch, t: Option<string>, actor: Actor, baseVersion: Option<int>, outcome: (Site, Option<Refusal>))
    requires site.record.Some? && outcome == Patched(env, site, patch, t, actor, baseVersion)
    ensures Exact(site, outcome, Current(site, baseVersion), false)
  {
  }

  lemma DiscardedIsExact(env: Env, site: Site, actor: Actor, baseVersion: Option<int>, outcome: (Site, Option<Refusal>))
    requires site.record.Some? && outcome == Discarded(env, site, actor, baseVersion)
    ensures Exact(site, outcome, Current(site, baseVersion), false)
  {
  }

  lemma PublishedIsExact(env: Env, site: Site, before: Payload, next: Payload, t: ChangeType, actor: Actor, outcome: (Site, Option<Refusal>))
    requires site.record.Some? && site.acp.Some? && outcome == Published(env, site, before, next, t, actor)
    ensures Exact(site, outcome, true, true)
  {
  }

  lemma SavedIsExact(env: Env, site: Site, actor: Actor, baseVersion: Option<int>, outcome: (Site, Option<Refusal>))
    requires site.record.Some? && site.acp.Some? && outcome == Saved(env, site, actor, baseVersion)
    ensures Exact(site, outcome, Current(site, baseVersion), true)
  {
    if Current(site, baseVersion) {
      PublishedIsExact(env, site, Normalized(env, site.record.value.published), Normalized(env, site.record.value.draft), SAVE_DRAFT, actor, outcome);
    }
  }

  predicate DirectlyCurrent(site: Site, baseVersion: Option<int>) {
    Current(site, baseVersion) && site.record.value.status == Clean
  }

  lemma PropertiesPublishedAreExact(env: Env, site: Site, raw: Json, t: string, actor: Actor, baseVersion: Option<int>, outcome: (Site, Option<Refusal>))
    requires site.record.Some? && site.acp.Some? && outcome == PropertiesPublished(env, site, raw, t, actor, baseVersion)
    ensures Exact(site, outcome, DirectlyCurrent(site, baseVersion), true)
  {
    if DirectlyCurrent(site, baseVersion) {
      var before := Normalized(env, site.record.value.published);
      PublishedIsExact(env, site, before, before.(itemProperties := ItemsOf(env, raw)), Named(t), actor, outcome);
    }
  }

  lemma TagsPublishedAreExact(env: Env, site: Site, raw: Json, t: Option<string>, actor: Actor, baseVersion: Option<int>, outcome: (Site, Option<Refusal>))
    requires site.record.Some? && site.acp.Some? && outcome == TagsPublished(env, site, raw, t, actor, baseVersion)
    ensures Exact(site, outcome, DirectlyCurrent(site, baseVersion), true)
  {
    if DirectlyCurrent(site, baseVersion) {
      var before := Normalized(env, site.record.value.published);
      PublishedIsExact(env, site, before, WithTags(env, before, raw), OrElse(t, REPLACE_ITEM_TAGS), actor, outcome);
    }
  }

  lemma LockedEditIsExact(env: Env, site: Site, q: Request, outcome: (Site, Option<Refusal>))
    requires site.record.Some? && site.acp.Some? && outcome == Locked(env, site, q) && !Publishes(q.change)
    ensures Exact(site, outcome, Admissible(site, q), false)
  {
    match q.change
    case PatchDraft(patch, t) => PatchedIsExact(env, site, patch, t, q.actor, q.baseVersion, outcome);
    case DiscardDraft => DiscardedIsExact(env, site, q.actor, q.baseVersion, outcome);
  }

  lemma LockedPublicationIsExact(env: Env, site: Site, q: Request, outcome: (Site, Option<Refusal>))
    requires site.record.Some? && site.acp.Some? && outcome == Locked(env, site, q) && Publishes(q.change)
    ensures Exact(site, outcome, Admissible(site, q), true)
  {
    match q.change
    case SaveDraft => SavedIsExact(env, site, q.actor, q.baseVersion, outcome);
    case PublishItemProperties(raw, t) => PropertiesPublishedAreExact(env, site, raw, t, q.actor, q.baseVersion, outcome);
    case PublishTags(raw, t) => TagsPublishedAreExact(env, site, raw, t, q.actor, q.baseVersion, outcome);
  }

  /** Exactly the admissible calls succeed. */
  lemma LockedIsExact(env: Env, site: Site, q: Request)
    requires Inv(env, site)
    ensures Exact(site, Locked(env, site, q), Admissible(site, q), Publishes(q.change))
  {
    if site.record.Some? {
      if Publishes(q.change) {
        LockedPublicationIsExact(env, site, q, Locked(env, site, q));
      } else {
        LockedEditIsExact(env, site, q, Locked(env, site, q));
      }
    }
  }

  /** Why a call is refused: there is no state, it is a direct change while a draft is pending, or it is
      based on another version. */
  ghost predicate IsRefusal(site: Site, q: Request, refusal: Refusal) {
    match refusal
    case NotFound => site.record == None
    case DraftPending => (q.change.PublishItemProperties? || q.change.PublishTags?) && site.record.Some? && site.record.value.status == Dirty
    case VersionConflict(expected, current) =>
      site.record.Some? && q.baseVersion == Some(expected) && current == site.record.value.version && expected != current
  }

  lemma RefusedExactly(env: Env, site: Site, q: Request)
    requires Inv(env, site)
    ensures Locked(env, site, q).1.Some? <==> !Admissible(site, q)
    ensures Locked(env, site, q).1.Some? ==> IsRefusal(site, q, Locked(env, site, q).1.value)
  {
    LockedIsExact(env, site, q);
    if site.record.Some? { RefusedFor(env, site, q, Locked(env, site, q).1); }
  }

  lemma RefusedFor(env: Env, site: Site, q: Request, refusal: Option<Refusal>)
    requires site.record.Some? && site.acp.Some? && refusal == Locked(env, site, q).1
    ensures refusal.Some? ==> IsRefusal(site, q, refusal.value)
  {
    match q.change
    case PatchDraft(patch, t) =>
    case DiscardDraft =>
    case SaveDraft =>
    case PublishItemProperties(raw, t) =>
    case PublishTags(raw, t) =>
  }

  /** The name under which a change is logged: its own one if it has one, else that of its kind. */
  ghost predicate LoggedAs(c: Change, t: ChangeType) {
    match c
    case PatchDraft(_, own) => if own.Some? && own.value != "" then t == Named(own.value) else t == PATCH_DRAFT
    case SaveDraft => t == SAVE_DRAFT
    case DiscardDraft => t == DISCARD_DRAFT
    case PublishItemProperties(_, own) => t == Named(own)
    case PublishTags(_, own) => if own.Some? && own.value != "" then t == Named(own.value) else t == REPLACE_ITEM_TAGS
  }

  /** One entry has been added, of the state as it was shown before, the state as it is stored now, both
      new versions and the actor. */
  ghost predicate AddsEntry(site: Site, after: Site, q: Request, before: Payload) {
    && site.record.Some? && after.record.Some? && |after.log| == |site.log| + 1 && after.log[..|site.log|] == site.log
    && var r, entry := after.record.value, after.log[|site.log|];
       && LoggedAs(q.change, entry.changeType) && entry.actor == q.actor && r.updatedBy == q.actor
       && entry.draftVersion == r.version && entry.publishedVersion == r.publishedVersion && entry.before == before && entry.after == r.draft
  }

  lemma EditIsLogged(site: Site, q: Request, before: Payload, draft: Payload, status: Status, t: ChangeType, after: Site)
    requires site.record.Some? && after == Edited(site, before, draft, status, t, q.actor) && LoggedAs(q.change, t)
    ensures AddsEntry(site, after, q, before)
  {
  }

  lemma PublicationIsLogged(env: Env, site: Site, q: Request, before: Payload, next: Payload, t: ChangeType, after: Site)
    requires site.record.Some? && (after, None) == Published(env, site, before, next, t, q.actor) && LoggedAs(q.change, t)
    ensures AddsEntry(site, after, q, before)
  {
  }

  lemma CallsAreLogged(env: Env, site: Site, q: Request, after: Site)
    requires site.record.Some? && (after, None) == Locked(env, site, q)
    ensures AddsEntry(site, after, q, Normalized(env, if Publishes(q.change) then site.record.value.published else site.record.value.draft))
  {
    var r := site.record.value;
    var draft, published := Normalized(env, r.draft), Normalized(env, r.published);
    match q.change
    case PatchDraft(patch, t) =>
      var next := Merged(env, draft, patch);
      EditIsLogged(site, q, draft, next, if next == published then Clean else Dirty, OrElse(t, PATCH_DRAFT), after);
    case DiscardDraft => EditIsLogged(site, q, draft, published, Clean, DISCARD_DRAFT, after);
    case SaveDraft => PublicationIsLogged(env, site, q, published, draft, SAVE_DRAFT, after);
    case PublishItemProperties(raw, t) => PublicationIsLogged(env, site, q, published, published.(itemProperties := ItemsOf(env, raw)), Named(t), after);
    case PublishTags(raw, t) => PublicationIsLogged(env, site, q, published, WithTags(env, published, raw), OrElse(t, REPLACE_ITEM_TAGS), after);
  }

  // ---------------------------------------------------------------- what saving and discarding do

  lemma PublishedShows(env: Env, site: Site, before: Payload, next: Payload, t: ChangeType, actor: Actor)
    requires site.record.Some? && site.acp.Some? && Tidy(env, next)
    ensures var after := Published(env, site, before, next, t, actor).0;
      && after.record.Some? && after.record.value.status == Clean
      && after.record.value.published == next && after.record.value.draft == next
      && after.acp.Some? && ItemsOf(env, after.acp.value) == next.itemProperties
  {
    ItemsKept(env, next.itemProperties);
  }

  lemma SavedShows(env: Env, site: Site, actor: Actor, baseVersion: Option<int>)
    requires site.record.Some? && Saved(env, site, actor, baseVersion).1 == None
    ensures var after, shown := Saved(env, site, actor, baseVersion).0, Normalized(env, site.record.value.draft);
      && after.record.Some? && after.record.value.status == Clean
      && after.record.value.published == shown && after.record.value.draft == shown
      && after.acp.Some? && ItemsOf(env, after.acp.value) == shown.itemProperties
  {
    NormalizedTidy(env, site.record.value.draft);
    PublishedShows(env, site, Normalized(env, site.record.value.published), Normalized(env, site.record.value.draft), SAVE_DRAFT, actor);
  }

  lemma NormalizedSettles(env: Env, p: Payload)
    requires Tidy(env, p)
    ensures Normalized(env, Normalized(env, p)) == Normalized(env, p)
  {
    SettlesTheSecondTime(env, p);
  }

  /** Saving publishes what the editors were shown, and the ACP gets its item properties. */
  lemma SavingPublishesTheDraft(env: Env, site: Site, q: Request)
    requires Inv(env, site) && q.change.SaveDraft? && Locked(env, site, q).1 == None
    ensures site.record.Some? && Locked(env, site, q).0.record.Some? && Locked(env, site, q).0.acp.Some?
    ensures var shown, after := Normalized(env, site.record.value.draft), Locked(env, site, q).0;
      && after.record.value.status == Clean
      && Normalized(env, after.record.value.published) == shown && Normalized(env, after.record.value.draft) == shown
      && ItemsOf(env, after.acp.value) == shown.itemProperties
  {
    SavedShows(env, site, q.actor, q.baseVersion);
    NormalizedSettles(env, site.record.value.draft);
  }

  function Edits(env: Env, site: Site, qs: seq<Request>): Site {
    if qs == [] then site else Locked(env, Edits(env, site, qs[..|qs| - 1]), qs[|qs| - 1]).0
  }

  /** Patching and discarding do not touch what is published. */
  lemma {:induction false} EditsLeavePublished(env: Env, site: Site, qs: seq<Request>)
    requires Inv(env, site) && site.record.Some? && forall i :: 0 <= i < |qs| ==> !Publishes(qs[i].change)
    ensures var after := Edits(env, site, qs);
      Inv(env, after) && after.record.Some? && after.record.value.published == site.record.value.published && after.acp == site.acp
  {
    if qs != [] {
      var before := Edits(env, site, qs[..|qs| - 1]);
      EditsLeavePublished(env, site, qs[..|qs| - 1]);
      LockedKeepsInv(env, before, qs[|qs| - 1]);
      LockedIsExact(env, before, qs[|qs| - 1]);
    }
  }

  lemma DiscardedIs(env: Env, site: Site, q: Request)
    requires site.record.Some? && q.change.DiscardDraft? && Locked(env, site, q).1 == None
    ensures Locked(env, site, q).0.record.Some?
    ensures var r, r' := site.record.value, Locked(env, site, q).0.record.value;
      r'.status == Clean && r'.published == r.published && r'.draft == Normalized(env, r.published)
  {
  }

  /** An editor of a clean state is shown what is published. */
  lemma CleanShowsPublished(env: Env, r: Record)
    requires Consistent(env, r) && r.status == Clean
    ensures Normalized(env, r.draft) == Normalized(env, r.published)
  {
    NormalizedSettles(env, r.published);
  }

  /** Discarding undoes all edits since the draft was clean: editors are shown what they were shown
      then, and viewers have not noticed anything. */
  lemma DiscardingUndoesEdits(env: Env, site: Site, qs: seq<Request>, q: Request)
    requires Inv(env, site) && site.record.Some? && site.record.value.status == Clean
    requires forall i :: 0 <= i < |qs| ==> !Publishes(qs[i].change)
    requires q.change.DiscardDraft? && Locked(env, Edits(env, site, qs), q).1 == None
    ensures Locked(env, Edits(env, site, qs), q).0.record.Some?
    ensures var r, r' := site.record.value, Locked(env, Edits(env, site, qs), q).0.record.value;
      r'.status == Clean && r'.published == r.published && Normalized(env, r'.draft) == Normalized(env, r.draft)
  {
    EditsLeavePublished(env, site, qs);
    DiscardedIs(env, Edits(env, site, qs), q);
    NormalizedSettles(env, site.record.value.published);
    CleanShowsPublished(env, site.record.value);
  }

  // ------------------------------------------------------------------------------- runs

  datatype Call = Call(columns: RawColumns, request: Request)

  function Run(env: Env, site: Site, calls: seq<Call>): Site {
    if calls == [] then site
    else
      var c := calls[|calls| - 1];
      Apply(env, Run(env, site, calls[..|calls| - 1]), c.columns, c.request).0
  }

  function Successes(env: Env, site: Site, calls: seq<Call>): nat {
    if calls == [] then 0
    else
      var c, before := calls[|calls| - 1], calls[..|calls| - 1];
      Successes(env, site, before) + if Apply(env, Run(env, site, before), c.columns, c.request).1 == None then 1 else 0
  }

  /** What holds of the state of an ACP at any time. */
  ghost predicate InOrder(env: Env, site: Site) {
    match site.record
    case None => true
    case Some(r) =>
      && r.publishedVersion <= r.version
      && (r.status == Clean ==> Normalized(env, r.draft) == Normalized(env, r.published))
      && site.acp.Some? && ItemsOf(env, site.acp.value) == r.published.itemProperties
      && (site.log != [] ==> site.log[|site.log| - 1].after == r.draft)
      && (LastPublished(site.log).Some? ==> LastPublished(site.log).value == r.published)
  }

  lemma InvMeans(env: Env, site: Site)
    requires Inv(env, site)
    ensures InOrder(env, site)
  {
    if site.record.Some? { SettlesTheSecondTime(env, site.record.value.published); }
  }

  /** Over every run, refused calls included, every state is in order, and its version counts the
      successful calls. */
  lemma {:induction false} EveryRunIsInOrder(env: Env, acp: Option<Json>, calls: seq<Call>)
    ensures var site := Run(env, Site(acp, None, []), calls);
      && Inv(env, site) && InOrder(env, site)
      && |site.log| == Successes(env, Site(acp, None, []), calls)
      && (site.record.Some? ==> site.record.value.version == 1 + Successes(env, Site(acp, None, []), calls))
  {
    var first := Site(acp, None, []);
    if calls != [] {
      var c, before := calls[|calls| - 1], calls[..|calls| - 1];
      EveryRunIsInOrder(env, acp, before);
      var site := Run(env, first, before);
      EnsuredKeepsInv(env, site, c.columns);
      LockedKeepsInv(env, Ensured(env, site, c.columns), c.request);
      LockedIsExact(env, Ensured(env, site, c.columns), c.request);
    }
    InvMeans(env, Run(env, first, calls));
  }

  /** An entry that did not publish starts from what the entry before it left behind; so the log
      of drafts has no gap. */
  lemma EntriesFollowEachOther(env: Env, site: Site, q: Request)
    requires Inv(env, site) && site.log != [] && !Publishes(q.change) && Locked(env, site, q).1 == None
    ensures var log := Locked(env, site, q).0.log;
      |log| == |site.log| + 1 && log[|site.log|].before == Normalized(env, site.log[|site.log| - 1].after)
  {
  }

  // ------------------------------------------------------------------- what a patch touches

  lemma {:induction false} PatchedElsewhere(t: ItemTable, e: Properties, k: string)
    requires forall i :: 0 <= i < |e| ==> Trim(e[i].0) != k
    ensures Lookup(PatchItems(t, e), k) == Lookup(t, k)
  {
    if e != [] {
      var rest, last := PatchItems(t, e[..|e| - 1]), e[|e| - 1];
      PatchedElsewhere(t, e[..|e| - 1], k);
      var key := Trim(last.0);
      LookupRemove(rest, key, k);
      LookupSet(rest, key, Merge(PropsAt(rest, key), AsRecord(last.1)), k);
    }
  }

  ghost predicate TrimmedKeys(t: ItemTable) {
    Unique(t) && forall i :: 0 <= i < |t| ==> t[i].0 != "" && Trimmed(t[i].0)
  }

  lemma {:induction false} PatchedKeys(t: ItemTable, e: Properties)
    requires TrimmedKeys(t)
    ensures TrimmedKeys(PatchItems(t, e))
  {
    if e != [] {
      var rest, last := PatchItems(t, e[..|e| - 1]), e[|e| - 1];
      PatchedKeys(t, e[..|e| - 1]);
      var key := Trim(last.0);
      TrimIsTrimmed(last.0);
      RemoveShape(rest, key);
      SetShape(rest, key, Merge(PropsAt(rest, key), AsRecord(last.1)));
      forall i | 0 <= i < |Remove(rest, key)| ensures Remove(rest, key)[i].0 != "" && Trimmed(Remove(rest, key)[i].0) {
        var j :| 0 <= j < |rest| && rest[j] == Remove(rest, key)[i];
      }
    }
  }

  lemma NormalizedLast(env: Env, t: ItemTable)
    requires TrimmedKeys(t) && t != []
    ensures var n := |t| - 1;
      var rest, e := ItemsOf(env, RawItems(t[..n])), PropertiesOf(env, OfRow(t[n].0), t[n].1);
      ItemsOf(env, RawItems(t)) == if e == [] then rest else Set(rest, t[n].0, e)
  {
    var n := |t| - 1;
    assert RawItems(t).entries[..n] == RawItems(t[..n]).entries;
    TrimFixpoint(t[n].0);
  }

  /** Normalising a table with trimmed keys works on each key by itself. */
  lemma {:induction false} LookupNormalized(env: Env, t: ItemTable, k: string)
    requires TrimmedKeys(t)
    ensures Lookup(ItemsOf(env, RawItems(t)), k) ==
      match Lookup(t, k) {
        case None => None
        case Some(e) => if PropertiesOf(env, OfRow(k), e) == [] then None else Some(PropertiesOf(env, OfRow(k), e))
      }
  {
    if t != [] {
      var n := |t| - 1;
      var rest, e := ItemsOf(env, RawItems(t[..n])), PropertiesOf(env, OfRow(t[n].0), t[n].1);
      LookupNormalized(env, t[..n], k);
      NormalizedLast(env, t);
      LookupSet(rest, t[n].0, e, k);
      LookupFinds(t[..n], k);
      if t[n].0 == k {
        LookupAt(t, n);
        assert Lookup(t[..n], k) == None;
      } else {
        LookupPrefix(t, k);
      }
    }
  }

  lemma KeysAreTrimmed(env: Env, t: ItemTable)
    requires AreItems(env, t)
    ensures TrimmedKeys(t)
  {
    forall i | 0 <= i < |t| ensures t[i].0 != "" && Trimmed(t[i].0) { assert IsItem(env)(t[i].0, t[i].1); }
  }

  /** A patch of item properties leaves every item it does not name as it was. */
  lemma UnnamedItemsStay(env: Env, current: Payload, patch: Patch, k: string)
    requires Tidy(env, current) && patch.itemProperties == Undefined
    requires forall i :: 0 <= i < |AsRecord(patch.itemPropertiesPatch)| ==> Trim(AsRecord(patch.itemPropertiesPatch)[i].0) != k
    ensures Lookup(Merged(env, current, patch).itemProperties, k) == Lookup(current.itemProperties, k)
  {
    var t, e := current.itemProperties, AsRecord(patch.itemPropertiesPatch);
    ItemsKept(env, t);
    KeysAreTrimmed(env, t);
    PatchedKeys(t, e);
    PatchedElsewhere(t, e, k);
    LookupNormalized(env, PatchItems(t, e), k);
    LookupFinds(t, k);
    if Lookup(t, k).Some? {
      var i :| 0 <= i < |t| && t[i] == (k, Lookup(t, k).value);
      assert IsItem(env)(t[i].0, t[i].1);
      PropertiesKept(env, OfRow(k), t[i].1);
    }
  }

  /** An entry of a patch that decides about property `x` of item `k`: it removes the item, or it
      gives the property. */
  ghost predicate Decides(p: (string, Json), k: string, x: string) {
    Trim(p.0) == k && (p.1 == Null || Lookup(AsRecord(p.1), x).Some?)
  }

  /** Entry `i` is the last one that decides. */
  ghost predicate DecidesLast(e: Properties, i: nat, k: string, x: string) {
    i < |e| && Decides(e[i], k, x) && forall j :: i < j < |e| ==> !Decides(e[j], k, x)
  }

  ghost predicate Undecided(e: Properties, k: string, x: string) {
    forall j :: 0 <= j < |e| ==> !Decides(e[j], k, x)
  }

  /** Objects name each of their properties once. */
  ghost predicate Objects(e: Properties) {
    forall i :: 0 <= i < |e| ==> Unique(AsRecord(e[i].1))
  }

  lemma PropertyOfPatched(t: ItemTable, p: (string, Json), k: string, x: string)
    requires k != "" && Unique(AsRecord(p.1))
    ensures Lookup(PropsAt(PatchItem(t, p.0, p.1), k), x) ==
      if !Decides(p, k, x) then Lookup(PropsAt(t, k), x)
      else if p.1 == Null then None else Lookup(AsRecord(p.1), x)
  {
    var key := Trim(p.0);
    var next := Merge(PropsAt(t, key), AsRecord(p.1));
    LookupRemove(t, key, k);
    LookupSet(t, key, next, k);
    LookupMerge(PropsAt(t, key), AsRecord(p.1), x);
    assert next == [] ==> Lookup(next, x) == None;
  }

  /** The last entry that decides about a property has its way; one about which no entry decides
      stays as it was. */
  lemma {:induction false} PatchedProperty(t: ItemTable, e: Properties, k: string, x: string, i: nat)
    requires k != "" && Objects(e)
    ensures Undecided(e, k, x) ==> Lookup(PropsAt(PatchItems(t, e), k), x) == Lookup(PropsAt(t, k), x)
    ensures DecidesLast(e, i, k, x) ==>
      Lookup(PropsAt(PatchItems(t, e), k), x) == if e[i].1 == Null then None else Lookup(AsRecord(e[i].1), x)
  {
    if e != [] {
      var n := |e| - 1;
      PatchedProperty(t, e[..n], k, x, i);
      assert Unique(AsRecord(e[n].1));
      PropertyOfPatched(PatchItems(t, e[..n]), e[n], k, x);
      if Undecided(e, k, x) { assert !Decides(e[n], k, x); }
      if DecidesLast(e, i, k, x) && i < n {
        assert !Decides(e[n], k, x);
        assert DecidesLast(e[..n], i, k, x);
      }
    }
  }

  lemma {:induction false} MergeUnique<V>(a: seq<(string, V)>, b: seq<(string, V)>)
    requires Unique(a)
    ensures Unique(Merge(a, b))
  {
    if b != [] {
      MergeUnique(a, b[..|b| - 1]);
      SetShape(Merge(a, b[..|b| - 1]), b[|b| - 1].0, b[|b| - 1].1);
    }
  }

  lemma {:induction false} PatchedObject(t: ItemTable, e: Properties, k: string)
    requires Unique(PropsAt(t, k))
    ensures Unique(PropsAt(PatchItems(t, e), k))
  {
    if e != [] {
      var rest, last := PatchItems(t, e[..|e| - 1]), e[|e| - 1];
      PatchedObject(t, e[..|e| - 1], k);
      var key := Trim(last.0);
      var next := Merge(PropsAt(rest, key), AsRecord(last.1));
      LookupRemove(rest, key, k);
      LookupSet(rest, key, next, k);
      if key == k { MergeUnique(PropsAt(rest, key), AsRecord(last.1)); }
    }
  }

  /** What a property is once it has been given to a row or an item and normalised. */
  function Settled(env: Env, k: string, x: string, v: Option<Json>): Option<Json> {
    match v
    case None => None
    case Some(y) => Property(env, OfRow(k), x, y)
  }

  lemma NormalizedProperty(env: Env, t: ItemTable, k: string, x: string)
    requires TrimmedKeys(t) && Unique(PropsAt(t, k))
    ensures Lookup(PropsAt(ItemsOf(env, RawItems(t)), k), x) == Settled(env, k, x, Lookup(PropsAt(t, k), x))
  {
    LookupNormalized(env, t, k);
    LookupRetained(Norm(env, OfRow(k)), PropsAt(t, k), x);
    if Lookup(PropsAt(t, k), x).Some? { NormIs(env, OfRow(k), x, Lookup(PropsAt(t, k), x).value); }
  }

  /** The items of the draft before their entries in the patch are looked at. */
  function BaseItems(env: Env, current: Payload, patch: Patch): ItemTable {
    if patch.itemProperties == Undefined then current.itemProperties else ItemsOf(env, patch.itemProperties)
  }

  lemma BaseItemsShape(env: Env, current: Payload, patch: Patch)
    requires Tidy(env, current)
    ensures AreItems(env, BaseItems(env, current, patch)) && TrimmedKeys(BaseItems(env, current, patch))
    ensures Merged(env, current, patch).itemProperties ==
      if patch.itemPropertiesPatch.Obj? then ItemsOf(env, RawItems(PatchItems(BaseItems(env, current, patch), patch.itemPropertiesPatch.entries)))
      else BaseItems(env, current, patch)
  {
    ItemsKept(env, current.itemProperties);
    ItemsShape(env, patch.itemProperties);
    KeysAreTrimmed(env, BaseItems(env, current, patch));
  }

  lemma PropertyIsSettled(env: Env, t: ItemTable, k: string, x: string)
    requires AreItems(env, t)
    ensures Settled(env, k, x, Lookup(PropsAt(t, k), x)) == Lookup(PropsAt(t, k), x)
  {
    PropsAreNormal(env, t, k);
    LookupFinds(PropsAt(t, k), x);
  }

  /** Every property of every item after a patch: the last entry of the patch that decides about it
      gives its value, which is normalised, or removes it with its item; otherwise it is what the
      items that the patch gives, or those of the draft, say. */
  lemma PatchedPropertyIs(env: Env, current: Payload, patch: Patch, k: string, x: string, i: nat)
    requires Tidy(env, current) && k != "" && Objects(AsRecord(patch.itemPropertiesPatch))
    requires Unique(PropsAt(BaseItems(env, current, patch), k))
    ensures var e, was := AsRecord(patch.itemPropertiesPatch), Lookup(PropsAt(BaseItems(env, current, patch), k), x);
      var found := Lookup(PropsAt(Merged(env, current, patch).itemProperties, k), x);
      && (Undecided(e, k, x) ==> found == was)
      && (DecidesLast(e, i, k, x) ==> found == if e[i].1 == Null then None else Settled(env, k, x, Lookup(AsRecord(e[i].1), x)))
  {
    var t, e := BaseItems(env, current, patch), AsRecord(patch.itemPropertiesPatch);
    BaseItemsShape(env, current, patch);
    if patch.itemPropertiesPatch.Obj? {
      PatchedKeys(t, e);
      PatchedObject(t, e, k);
      PatchedProperty(t, e, k, x, i);
      NormalizedProperty(env, PatchItems(t, e), k, x);
      PropertyIsSettled(env, t, k, x);
    }
  }

  /** The parts that a patch gives are those of the new draft, normalised; the parts it does not
      give stay. Settings of the surface are merged one by one. */
  lemma PatchedParts(env: Env, current: Payload, patch: Patch, k: string)
    requires Tidy(env, current)
    ensures var after := Merged(env, current, patch);
      && after.tags == (if patch.tags == Undefined then current.tags else TagsOf(env, patch.tags))
      && after.itemOrder == (if patch.itemOrder == Undefined then current.itemOrder else Labels(env, patch.itemOrder))
      && (Lookup(AsRecord(patch.ui), k) == None ==> Lookup(after.ui, k) == Lookup(current.ui, k))
      && (Unique(AsRecord(patch.ui)) && Lookup(AsRecord(patch.ui), k).Some? ==> Lookup(after.ui, k) == Lookup(AsRecord(patch.ui), k))
  {
    TagsKept(env, current.tags);
    LookupMerge(current.ui, AsRecord(patch.ui), k);
  }

  /** Columns that are not given stay, but for widths whose names end in white space; given ones are
      normalised, and keep the restriction of the draft unless they say something about it. */
  lemma PatchedColumns(env: Env, current: Payload, patch: Patch)
    requires Tidy(env, current)
    ensures var after := Merged(env, current, patch).columns;
      match patch.columns {
        case None =>
          after.(layout := None) == current.columns.(layout := None) && (TrimmedColumns(current.columns) ==> after == current.columns)
        case Some(raw) =>
          && after.(restricted := false) == ColumnsOf(env, raw).(restricted := false)
          && (after.restricted <==> if raw.restricted == Undefined || raw.restricted == Null then current.columns.restricted else raw.restricted == Bool(true))
      }
  {
    if patch.columns == None { TrimmedColumnsAreKept(env, current.columns); }
  }

  // ----------------------------------------------------------------------- replacing tags

  lemma {:induction false} SetInside<V>(a: seq<(string, V)>, k: string, was: V, b: seq<(string, V)>, v: V)
    requires forall i :: 0 <= i < |a| ==> a[i].0 != k
    ensures Set(a + [(k, was)] + b, k, v) == a + [(k, v)] + b
  {
    var e := a + [(k, was)] + b;
    if a != [] {
      SetInside(a[1..], k, was, b, v);
      assert e[1..] == a[1..] + [(k, was)] + b;
      assert a == [a[0]] + a[1..];
    } else {
      assert e[1..] == b;
    }
  }

  lemma {:induction false} RemoveAbsent<V>(e: seq<(string, V)>, k: string)
    requires forall i :: 0 <= i < |e| ==> e[i].0 != k
    ensures Remove(e, k) == e
  {
    if e != [] {
      RemoveAbsent(e[1..], k);
      assert e == [e[0]] + e[1..];
    }
  }

  lemma {:induction false} RemoveInside<V>(a: seq<(string, V)>, k: string, was: V, b: seq<(string, V)>)
    requires forall i :: 0 <= i < |a| ==> a[i].0 != k
    requires forall i :: 0 <= i < |b| ==> b[i].0 != k
    ensures Remove(a + [(k, was)] + b, k) == a + b
  {
    var e := a + [(k, was)] + b;
    if a != [] {
      RemoveInside(a[1..], k, was, b);
      assert e[1..] == a[1..] + [(k, was)] + b;
      assert a + b == [a[0]] + (a[1..] + b);
    } else {
      assert e[1..] == b;
      RemoveAbsent(b, k);
    }
  }

  lemma {:induction false} UntaggedKeys(t: ItemTable, k: string)
    requires forall i :: 0 <= i < |t| ==> t[i].0 != k
    ensures forall i :: 0 <= i < |Untagged(t)| ==> Untagged(t)[i].0 != k
  {
    if t != [] { UntaggedKeys(t[..|t| - 1], k); }
  }

  /** The table while its first `i` items have lost their tags. */
  function PartlyUntagged(t: ItemTable, i: nat): ItemTable
    requires i <= |t|
  {
    Untagged(t[..i]) + t[i..]
  }

  lemma UntagOne(t: ItemTable, i: nat)
    requires Unique(t) && i < |t|
    ensures PartlyUntagged(t, i + 1) ==
      if Remove(t[i].1, "tags") == [] then Remove(PartlyUntagged(t, i), t[i].0)
      else Set(PartlyUntagged(t, i), t[i].0, Remove(t[i].1, "tags"))
  {
    var done, k, e := Untagged(t[..i]), t[i].0, Remove(t[i].1, "tags");
    UntaggedKeys(t[..i], k);
    assert t[..i + 1][..i] == t[..i];
    assert PartlyUntagged(t, i) == done + [(k, t[i].1)] + t[i + 1..];
    if e == [] {
      RemoveInside(done, k, t[i].1, t[i + 1..]);
      assert done + [] == done;
    } else {
      SetInside(done, k, t[i].1, t[i + 1..], e);
    }
  }

  /** The two loops of `publishTagsImmediately`. */
  method ReplaceTags(items: ItemTable, tags: Tags) returns (itemProperties: ItemTable)
    requires Unique(items)
    ensures itemProperties == Tagged(Untagged(items), tags)
  {
    itemProperties := items;
    assert items[..0] == [] && items[0..] == items;
    for i := 0 to |items|
      invariant itemProperties == PartlyUntagged(items, i)
    {
      UntagOne(items, i);
      var next := Remove(items[i].1, "tags");
      if next != [] {
        itemProperties := Set(itemProperties, items[i].0, next);
      } else {
        itemProperties := Remove(itemProperties, items[i].0);
      }
    }
    assert items[..|items|] == items;
    for i := 0 to |tags|
      invariant itemProperties == Tagged(Untagged(items), tags[..i])
    {
      assert tags[..i + 1][..i] == tags[..i];
      itemProperties := Set(itemProperties, tags[i].0, Set(PropsAt(itemProperties, tags[i].0), "tags", Strings(tags[i].1)));
    }
    assert tags[..|tags|] == tags;
  }

  lemma {:induction false} UntaggedProps(t: ItemTable, k: string)
    requires Unique(t)
    ensures PropsAt(Untagged(t), k) == Remove(PropsAt(t, k), "tags")
  {
    if t != [] {
      var n := |t| - 1;
      var rest, key, e := t[..n], t[n].0, Remove(t[n].1, "tags");
      UntaggedProps(rest, k);
      UntaggedKeys(rest, key);
      SetNew(Untagged(rest), key, e);
      LookupSet(Untagged(rest), key, e, k);
      LookupFinds(Untagged(rest), k);
      assert Untagged(rest) + [] == Untagged(rest);
      assert Untagged(t) == if e == [] then Untagged(rest) else Set(Untagged(rest), key, e);
      if key == k { LookupAt(t, n); } else { LookupPrefix(t, k); }
    }
  }

  lemma UntaggedItem(env: Env, k: string, e: Properties)
    requires IsItem(env)(k, e) && Remove(e, "tags") != []
    ensures IsItem(env)(k, Remove(e, "tags"))
  {
    RemoveShape(e, "tags");
    assert NormalProperties(env, OfRow(k), Remove(e, "tags"));
  }

  lemma {:induction false} UntaggedItems(env: Env, t: ItemTable)
    requires AreItems(env, t)
    ensures AreItems(env, Untagged(t))
  {
    if t != [] {
      var n := |t| - 1;
      assert All(t[..n], IsItem(env));
      UntaggedItems(env, t[..n]);
      UntaggedKeys(t[..n], t[n].0);
      assert IsItem(env)(t[n].0, t[n].1);
      if Remove(t[n].1, "tags") != [] { UntaggedItem(env, t[n].0, t[n].1); }
    }
  }

  lemma TagIsNormal(env: Env, ofRow: bool, e: Properties, v: seq<string>)
    requires NormalProperties(env, ofRow, e) && AreLabels(v)
    ensures NormalProperties(env, ofRow, Set(e, "tags", Strings(v)))
  {
    LabelsKept(env, v);
    SetShape(e, "tags", Strings(v));
  }

  lemma PropsAreNormal(env: Env, t: ItemTable, k: string)
    requires AreItems(env, t)
    ensures NormalProperties(env, OfRow(k), PropsAt(t, k))
  {
    LookupFinds(t, k);
    if Lookup(t, k).Some? {
      var i :| 0 <= i < |t| && t[i] == (k, Lookup(t, k).value);
      assert IsItem(env)(t[i].0, t[i].1);
    }
  }

  lemma TagOne(env: Env, t: ItemTable, k: string, v: seq<string>)
    requires AreItems(env, t) && IsTag(k, v)
    ensures AreItems(env, Set(t, k, Set(PropsAt(t, k), "tags", Strings(v))))
  {
    var e := Set(PropsAt(t, k), "tags", Strings(v));
    PropsAreNormal(env, t, k);
    TagIsNormal(env, OfRow(k), PropsAt(t, k), v);
    SetShape(PropsAt(t, k), "tags", Strings(v));
    SetShape(t, k, e);
    assert IsItem(env)(k, e);
    assert All(t, IsItem(env));
  }

  lemma {:induction false} TaggedShape(env: Env, t: ItemTable, tags: Tags, k: string)
    requires AreItems(env, t) && AreTags(tags)
    ensures AreItems(env, Tagged(t, tags))
    ensures PropsAt(Tagged(t, tags), k) ==
      match Lookup(tags, k) {
        case None => PropsAt(t, k)
        case Some(v) => Set(PropsAt(t, k), "tags", Strings(v))
      }
  {
    if tags != [] {
      var n := |tags| - 1;
      var rest, key, v := tags[..n], tags[n].0, tags[n].1;
      assert All(rest, IsTag);
      TaggedShape(env, t, rest, k);
      assert IsTag(key, v);
      TagOne(env, Tagged(t, rest), key, v);
      LookupSet(Tagged(t, rest), key, Set(PropsAt(Tagged(t, rest), key), "tags", Strings(v)), k);
      LookupFinds(rest, k);
      if key == k { LookupAt(tags, n); } else { LookupPrefix(tags, k); }
    }
  }

  /** After tags have been published, every item shows exactly the published tags, and every
      other property is what it was. */
  lemma PublishedTagsAgree(env: Env, before: Payload, raw: Json, k: string, x: string)
    requires Tidy(env, before)
    ensures var after := WithTags(env, before, raw);
      Prop(PropsAt(after.itemProperties, k), x) ==
        if x != "tags" then Prop(PropsAt(before.itemProperties, k), x)
        else match Lookup(after.tags, k) { case None => Undefined case Some(v) => Strings(v) }
  {
    var tags := TagsOf(env, raw);
    var t := before.itemProperties;
    TagsShape(env, raw);
    ItemsKept(env, t);
    UntaggedProps(t, k);
    UntaggedItems(env, t);
    TaggedShape(env, Untagged(t), tags, k);
    ItemsKept(env, Tagged(Untagged(t), tags));
    LookupRemove(PropsAt(t, k), "tags", x);
    if Lookup(tags, k).Some? { LookupSet(PropsAt(Untagged(t), k), "tags", Strings(Lookup(tags, k).value), x); }
  }
}
