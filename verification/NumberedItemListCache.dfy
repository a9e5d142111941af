/** backend/src/files/numbered-item-list.cache.ts: numbered item lists by ACP, parsed content and
    revision of the number table. A load may itself change the table; its entry then moves to
    the revision the load ended with. */
module NumberedItemListCaches {
  import opened ItemRowNumbering
  import opened JsMaps
  import opened Outcomes
  import opened Sorting
  import opened UnitParserServices

  /** The three parts of the key string; ids and hex digests do not contain the separator that
      joins them. */
  datatype Key = Key(acpId: string, baseKey: string, revision: string)

  datatype CacheValue = CacheValue(items: seq<Item>, rowRevision: string)

  datatype Promise = Pending | Fulfilled(value: CacheValue) | Rejected(error: string)

  datatype Entry = Entry(initialKey: Key, settled: bool, promise: Promise)

  datatype Status = Hit | Miss | Coalesced

  const MAX_ENTRIES: nat := 100

  datatype State = State(entries: JsMap<Key, nat>, created: seq<Entry>)

  function FinalKey(e: Entry, value: CacheValue): Key { e.initialKey.(revision := value.rowRevision) }

  /** `getOrLoad` up to its `await`. */
  function Requested(s: State, key: Key): State {
    if s.entries.Has(key) then
      s.(entries := s.entries.Delete(key).Put(key, s.entries.at[key]))
    else
      State(Evict(s.entries.Put(key, |s.created|), MAX_ENTRIES), s.created + [Entry(key, false, Pending)])
  }

  /** The entry under its final key. */
  function Rekeyed(m: JsMap<Key, nat>, initialKey: Key, finalKey: Key, ticket: nat): JsMap<Key, nat> {
    if finalKey != initialKey && m.Has(initialKey) && m.at[initialKey] == ticket then
      var without := m.Delete(initialKey);
      if without.Has(finalKey) then without else Evict(without.Put(finalKey, ticket), MAX_ENTRIES)
    else m
  }

  function Loaded(s: State, ticket: nat, value: CacheValue): State
    requires ticket < |s.created|
  {
    var e := s.created[ticket];
    State(Rekeyed(s.entries, e.initialKey, FinalKey(e, value), ticket),
          s.created[ticket := Entry(e.initialKey, true, Fulfilled(value))])
  }

  function LoadFailed(s: State, ticket: nat, error: string): State
    requires ticket < |s.created|
  {
    var e := s.created[ticket];
    State(DeleteIfCurrent(s.entries, e.initialKey, ticket), s.created[ticket := e.(promise := Rejected(error))])
  }

  function Invalidated(s: State, acpId: string): State {
    s.(entries := DeleteSelected(s.entries, (k: Key) => k.acpId == acpId))
  }

  // -------------------------------------------------------------- invariant of the cache

  /** A pending entry sits under the key it was requested with, a settled one under the key of
      the revision of its own value; failed loads are not stored. */
  ghost predicate RightKey(k: Key, e: Entry) {
    && k.acpId == e.initialKey.acpId && k.baseKey == e.initialKey.baseKey
    && match e.promise
       case Pending => !e.settled && k == e.initialKey
       case Fulfilled(value) => e.settled && k.revision == value.rowRevision
       case Rejected(_) => false
  }

  ghost predicate Inv(s: State) {
    && s.entries.Valid()
    && s.entries.Size() <= MAX_ENTRIES
    && (forall t :: 0 <= t < |s.created| ==> (s.created[t].settled <==> s.created[t].promise.Fulfilled?))
    && (forall k :: k in s.entries.at ==>
          s.entries.at[k] < |s.created| && RightKey(k, s.created[s.entries.at[k]]))
  }

  lemma RequestedKeepsInv(s: State, key: Key)
    requires Inv(s)
    ensures Inv(Requested(s, key))
  {
    if s.entries.Has(key) {
      TouchValid(s.entries, key, s.entries.at[key]);
      DeleteValid(s.entries, key);
    } else {
      PutValid(s.entries, key, |s.created|);
      EvictShape(s.entries.Put(key, |s.created|), MAX_ENTRIES);
    }
  }

  lemma LoadedKeepsInv(s: State, ticket: nat, value: CacheValue)
    requires Inv(s) && ticket < |s.created| && s.created[ticket].promise.Pending?
    ensures Inv(Loaded(s, ticket, value))
  {
    var e := s.created[ticket];
    var m := s.entries;
    DeleteValid(m, e.initialKey);
    var without := m.Delete(e.initialKey);
    PutValid(without, FinalKey(e, value), ticket);
    EvictShape(without.Put(FinalKey(e, value), ticket), MAX_ENTRIES);
    forall k | k in m.at && m.at[k] == ticket ensures k == e.initialKey {
      assert RightKey(k, s.created[m.at[k]]);
    }
  }

  lemma LoadFailedKeepsInv(s: State, ticket: nat, error: string)
    requires Inv(s) && ticket < |s.created| && s.created[ticket].promise.Pending?
    ensures Inv(LoadFailed(s, ticket, error))
  {
    var e := s.created[ticket];
    DeleteValid(s.entries, e.initialKey);
    forall k | k in s.entries.at && s.entries.at[k] == ticket ensures k == e.initialKey {
      assert RightKey(k, s.created[s.entries.at[k]]);
    }
  }

  lemma InvalidatedKeepsInv(s: State, acpId: string)
    requires Inv(s)
    ensures Inv(Invalidated(s, acpId))
    ensures forall k :: k in Invalidated(s, acpId).entries.at <==> k in s.entries.at && k.acpId != acpId
    ensures forall k :: k in Invalidated(s, acpId).entries.at ==> Invalidated(s, acpId).entries.at[k] == s.entries.at[k]
  {
    DeleteSelectedShape(s.entries, (k: Key) => k.acpId == acpId);
  }

  // ------------------------------------------------------------------- what the cache keeps

  /** What was requested is the youngest entry: the one that was there, or a new one beside the youngest
      others. */
  lemma RequestedIsStored(s: State, key: Key)
    requires Inv(s)
    ensures var s' := Requested(s, key);
      && s'.entries.Has(key)
      && s'.entries.order == (if s.entries.Has(key) then Without(s.entries.order, key) else Last(s.entries.order, MAX_ENTRIES - 1)) + [key]
      && (if s.entries.Has(key) then s'.entries.at[key] == s.entries.at[key] && s'.created == s.created
          else s'.entries.at[key] == |s.created| && s'.created == s.created + [Entry(key, false, Pending)])
      && forall k :: k in s'.entries.at && k != key ==> k in s.entries.at && s'.entries.at[k] == s.entries.at[k]
  {
    if s.entries.Has(key) {
      TouchValid(s.entries, key, s.entries.at[key]);
    } else {
      PutAndEvict(s.entries, key, |s.created|, MAX_ENTRIES);
    }
  }

  /** The load still has its entry. */
  predicate IsCurrent(s: State, ticket: nat)
    requires ticket < |s.created|
  {
    var k := s.created[ticket].initialKey;
    s.entries.Has(k) && s.entries.at[k] == ticket
  }

  /** A load that still has its entry leaves it under the key of its own revision, unless another entry is
      there, and under no other; all other entries stay. One whose entry is gone changes no entry. */
  lemma LoadedIsStored(s: State, ticket: nat, value: CacheValue)
    requires Inv(s) && ticket < |s.created| && s.created[ticket].promise.Pending?
    ensures var s', first := Loaded(s, ticket, value), s.created[ticket].initialKey;
      var final := FinalKey(s.created[ticket], value);
      if IsCurrent(s, ticket) then
        && s'.entries.Has(final) && (final != first ==> !s'.entries.Has(first))
        && s'.entries.at[final] == (if final != first && s.entries.Has(final) then s.entries.at[final] else ticket)
        && forall k :: k != first && k != final ==>
             (k in s'.entries.at <==> k in s.entries.at) && (k in s.entries.at ==> s'.entries.at[k] == s.entries.at[k])
      else s'.entries == s.entries
  {
    var m, first, final := s.entries, s.created[ticket].initialKey, FinalKey(s.created[ticket], value);
    if IsCurrent(s, ticket) && final != first {
      var without := m.Delete(first);
      DeleteValid(m, first);
      PutValid(without, final, ticket);
      EvictShape(without.Put(final, ticket), MAX_ENTRIES);
    }
  }

  /** So whoever asks for that key next shares the entry that is there and starts no other load. */
  lemma LoadedIsFoundAgain(s: State, ticket: nat, value: CacheValue)
    requires Inv(s) && ticket < |s.created| && s.created[ticket].promise.Pending? && IsCurrent(s, ticket)
    ensures var s' := Loaded(s, ticket, value);
      && Requested(s', FinalKey(s.created[ticket], value)).created == s'.created
      && s'.created == s.created[ticket := Entry(s.created[ticket].initialKey, true, Fulfilled(value))]
  {
    LoadedIsStored(s, ticket, value);
  }

  /** A failed load loses its entry and nothing else. */
  lemma FailedIsDropped(s: State, ticket: nat, error: string)
    requires Inv(s) && ticket < |s.created| && s.created[ticket].promise.Pending?
    ensures var s', first := LoadFailed(s, ticket, error), s.created[ticket].initialKey;
      && s'.created == s.created[ticket := Entry(first, false, Rejected(error))]
      && (IsCurrent(s, ticket) ==> !s'.entries.Has(first))
      && forall k :: k != first || !IsCurrent(s, ticket) ==>
           (k in s'.entries.at <==> k in s.entries.at) && (k in s.entries.at ==> s'.entries.at[k] == s.entries.at[k])
  {
  }

  // ------------------------------------------------------------------- runs of the system

  /** What a parse produced for a base key: the rows to show and, if their row keys differ, the
      published rows. A base key is a digest of everything the parse depends on. */
  datatype Parsed = Parsed(items: seq<Item>, published: Option<seq<Row>>)

  datatype Env = Env(revisionOf: Table -> string, le: (Row, Row) -> bool, parsed: string -> Parsed)

  /** The number table of every ACP with its past, and the cache. */
  datatype World = World(histories: map<string, seq<Version>>, cache: State)

  datatype Event =
    | Committed(acpId: string, write: Write)
    | ListRequested(acpId: string, baseKey: string, readAt: nat)
    | ListLoaded(ticket: nat, value: CacheValue, o: Observation, numbers: Table)
    | ListFailed(ticket: nat, error: string)
    | Dropped(acpId: string)

  ghost function KeyOf(env: Env, w: World, e: Event): Key
    requires e.ListRequested? && e.acpId in w.histories && e.readAt < |w.histories[e.acpId]|
  {
    Key(e.acpId, e.baseKey, env.revisionOf(w.histories[e.acpId][e.readAt].table))
  }

  /** Transactions commit at any time. A request carries the revision it read at some moment up
      to now. A load ends with what `applyItemRowNumbersWithStableRevision` can return. */
  ghost predicate Enabled(env: Env, w: World, e: Event) {
    match e
    case Committed(acpId, _) => acpId in w.histories && w.histories[acpId] != []
    case ListRequested(acpId, _, readAt) => acpId in w.histories && readAt < |w.histories[acpId]|
    case ListLoaded(t, value, o, numbers) =>
      && t < |w.cache.created| && w.cache.created[t].promise.Pending?
      && w.cache.created[t].initialKey.acpId in w.histories
      && var parsed := env.parsed(w.cache.created[t].initialKey.baseKey);
         && Succeeded(w.histories[w.cache.created[t].initialKey.acpId], env.revisionOf, env.le,
                      RowsOf(parsed.items), parsed.published, o, numbers, value.rowRevision)
         && value.items == WithNumbers(parsed.items, numbers)
    case ListFailed(t, _) => t < |w.cache.created| && w.cache.created[t].promise.Pending?
    case Dropped(_) => true
  }

  ghost function Next(env: Env, w: World, e: Event): World
    requires Enabled(env, w, e)
  {
    match e
    case Committed(acpId, write) =>
      var h := w.histories[acpId];
      w.(histories := w.histories[acpId := h + [Version(Commit(h[|h| - 1].table, write, env.le), Some(write))]])
    case ListRequested(_, _, _) => w.(cache := Requested(w.cache, KeyOf(env, w, e)))
    case ListLoaded(t, value, _, _) => w.(cache := Loaded(w.cache, t, value))
    case ListFailed(t, error) => w.(cache := LoadFailed(w.cache, t, error))
    case Dropped(acpId) => w.(cache := Invalidated(w.cache, acpId))
  }

  ghost predicate Run(env: Env, worlds: seq<World>, events: seq<Event>) {
    && |worlds| == |events| + 1
    && worlds[0].cache == State(EmptyMap(), [])
    && (forall i :: 0 <= i < |events| ==> Enabled(env, worlds[i], events[i]) && worlds[i + 1] == Next(env, worlds[i], events[i]))
  }

  ghost predicate StableRevisions(env: Env, w: World) {
    forall acpId :: acpId in w.histories ==> NoRecurrence(w.histories[acpId], env.revisionOf)
  }

  /** The value is the uncached numbering of its content in a table with its revision. */
  ghost predicate Exact(env: Env, h: seq<Version>, baseKey: string, value: CacheValue) {
    exists at: nat :: at < |h| && ExactAt(env, h[at].table, baseKey, value)
  }

  ghost predicate ExactAt(env: Env, t: Table, baseKey: string, value: CacheValue) {
    && value.rowRevision == env.revisionOf(t)
    && value.items == WithNumbers(env.parsed(baseKey).items,
                                  Provisional(t, NormalizeRows(RowsOf(env.parsed(baseKey).items)), env.le))
  }

  ghost predicate AllExact(env: Env, w: World) {
    forall t :: 0 <= t < |w.cache.created| && w.cache.created[t].promise.Fulfilled? ==>
      && w.cache.created[t].initialKey.acpId in w.histories
      && Exact(env, w.histories[w.cache.created[t].initialKey.acpId], w.cache.created[t].initialKey.baseKey,
               w.cache.created[t].promise.value)
  }

  lemma NextKeepsInv(env: Env, w: World, e: Event)
    requires Inv(w.cache) && Enabled(env, w, e)
    ensures Inv(Next(env, w, e).cache)
  {
    match e
    case Committed(_, _) =>
    case ListRequested(_, _, _) => RequestedKeepsInv(w.cache, KeyOf(env, w, e));
    case ListLoaded(t, value, _, _) => LoadedKeepsInv(w.cache, t, value);
    case ListFailed(t, error) => LoadFailedKeepsInv(w.cache, t, error);
    case Dropped(acpId) => InvalidatedKeepsInv(w.cache, acpId);
  }

  ghost predicate Grown(w: World, w': World) {
    && w.histories.Keys == w'.histories.Keys
    && (forall acpId :: acpId in w.histories ==> w.histories[acpId] <= w'.histories[acpId])
  }

  lemma NextGrows(env: Env, w: World, e: Event)
    requires Enabled(env, w, e)
    ensures Grown(w, Next(env, w, e))
  {
  }

  lemma OneStepGrows(env: Env, worlds: seq<World>, events: seq<Event>, i: nat)
    requires Run(env, worlds, events) && i < |events|
    ensures Grown(worlds[i], worlds[i + 1])
  {
    NextGrows(env, worlds[i], events[i]);
  }

  lemma {:induction false} GrowthComposes(worlds: seq<World>, i: nat, n: nat)
    requires i <= n < |worlds| && forall k :: 0 <= k < |worlds| - 1 ==> Grown(worlds[k], worlds[k + 1])
    ensures Grown(worlds[i], worlds[n])
  {
    if i < n {
      GrowthComposes(worlds, i, n - 1);
      assert Grown(worlds[n - 1], worlds[n - 1 + 1]);
      PrefixesCompose(worlds[i], worlds[n - 1], worlds[n]);
    }
  }

  lemma HistoriesGrow(env: Env, worlds: seq<World>, events: seq<Event>, i: nat, n: nat)
    requires Run(env, worlds, events) && i <= n < |worlds|
    ensures Grown(worlds[i], worlds[n])
  {
    forall k | 0 <= k < |worlds| - 1 ensures Grown(worlds[k], worlds[k + 1]) { OneStepGrows(env, worlds, events, k); }
    GrowthComposes(worlds, i, n);
  }

  lemma PrefixesCompose(a: World, b: World, c: World)
    requires Grown(a, b) && Grown(b, c)
    ensures Grown(a, c)
  {
    forall acpId | acpId in a.histories ensures a.histories[acpId] <= c.histories[acpId] {
      assert a.histories[acpId] <= b.histories[acpId] <= c.histories[acpId];
    }
  }

  /** Stability of revisions up to the end of a run includes stability at every earlier moment. */
  lemma EarlierStable(env: Env, w: World, end: World)
    requires Grown(w, end) && StableRevisions(env, end)
    ensures StableRevisions(env, w)
  {
    forall acpId | acpId in w.histories ensures NoRecurrence(w.histories[acpId], env.revisionOf) {
      var h, h' := w.histories[acpId], end.histories[acpId];
      assert NoRecurrence(h', env.revisionOf);
      assert forall i :: 0 <= i < |h| ==> h[i] == h'[i];
    }
  }

  lemma ExactLater(env: Env, h: seq<Version>, h': seq<Version>, baseKey: string, value: CacheValue)
    requires Exact(env, h, baseKey, value) && h <= h'
    ensures Exact(env, h', baseKey, value)
  {
    var at: nat :| at < |h| && ExactAt(env, h[at].table, baseKey, value);
    assert h'[at] == h[at];
  }

  lemma NextKeepsExact(env: Env, w: World, e: Event)
    requires AllExact(env, w) && Enabled(env, w, e) && StableRevisions(env, w)
    ensures AllExact(env, Next(env, w, e))
  {
    var w' := Next(env, w, e);
    NextGrows(env, w, e);
    forall t | 0 <= t < |w'.cache.created| && w'.cache.created[t].promise.Fulfilled?
      ensures w'.cache.created[t].initialKey.acpId in w'.histories
      ensures Exact(env, w'.histories[w'.cache.created[t].initialKey.acpId], w'.cache.created[t].initialKey.baseKey,
                    w'.cache.created[t].promise.value)
    {
      var entry := w'.cache.created[t];
      var acpId := entry.initialKey.acpId;
      if e.ListLoaded? && t == e.ticket {
        var h := w.histories[acpId];
        var parsed := env.parsed(entry.initialKey.baseKey);
        assert NoRecurrence(h, env.revisionOf);
        SuccessIsExact(h, env.revisionOf, env.le, RowsOf(parsed.items), parsed.published, e.o, e.numbers, e.value.rowRevision);
        assert ExactAt(env, h[e.o.revised].table, entry.initialKey.baseKey, e.value);
      } else {
        assert entry == w.cache.created[t];
        ExactLater(env, w.histories[acpId], w'.histories[acpId], entry.initialKey.baseKey, entry.promise.value);
      }
    }
  }

  /** In every interleaving of requests, loads, assignments, renumberings and invalidations:
      the bound holds, each settled entry sits under the revision of its own value, and each
      value that a load ever returned is an exact numbering. */
  lemma {:induction false} EveryStateIsSound(env: Env, worlds: seq<World>, events: seq<Event>, n: nat)
    requires Run(env, worlds, events) && n < |worlds| && StableRevisions(env, worlds[|events|])
    ensures Inv(worlds[n].cache) && AllExact(env, worlds[n])
  {
    if n > 0 {
      EveryStateIsSound(env, worlds, events, n - 1);
      HistoriesGrow(env, worlds, events, n - 1, |events|);
      EarlierStable(env, worlds[n - 1], worlds[|events|]);
      NextKeepsInv(env, worlds[n - 1], events[n - 1]);
      NextKeepsExact(env, worlds[n - 1], events[n - 1]);
    }
  }

  /** A hit serves what an uncached numbering would produce in the table whose revision the
      request had read. */
  lemma HitIsUncachedNumbering(env: Env, worlds: seq<World>, events: seq<Event>, n: nat)
    requires Run(env, worlds, events) && StableRevisions(env, worlds[|events|])
    requires n < |events| && events[n].ListRequested?
    requires var key := KeyOf(env, worlds[n], events[n]);
      && worlds[n].cache.entries.Has(key)
      && worlds[n].cache.entries.at[key] < |worlds[n].cache.created|
      && worlds[n].cache.created[worlds[n].cache.entries.at[key]].settled
    ensures var key := KeyOf(env, worlds[n], events[n]);
      var entry := worlds[n].cache.created[worlds[n].cache.entries.at[key]];
      && entry.promise.Fulfilled?
      && ExactAt(env, worlds[n].histories[events[n].acpId][events[n].readAt].table, events[n].baseKey, entry.promise.value)
  {
    var w, e := worlds[n], events[n];
    var key := KeyOf(env, w, e);
    EveryStateIsSound(env, worlds, events, n);
    HistoriesGrow(env, worlds, events, n, |events|);
    EarlierStable(env, w, worlds[|events|]);
    var ticket := w.cache.entries.at[key];
    var entry := w.cache.created[ticket];
    assert RightKey(key, entry);
    var h := w.histories[e.acpId];
    assert NoRecurrence(h, env.revisionOf);
    assert Exact(env, h, e.baseKey, entry.promise.value);
    var at: nat :| at < |h| && ExactAt(env, h[at].table, e.baseKey, entry.promise.value);
    assert env.revisionOf(h[at].table) == env.revisionOf(h[e.readAt].table);
    var lo, hi := if at <= e.readAt then at else e.readAt, if at <= e.readAt then e.readAt else at;
    assert h[lo].table == h[hi].table;
  }

  // ------------------------------------------------------------------------ the class

  class NumberedItemListCache {
    var entries: JsMap<Key, nat>
    var created: seq<Entry>

    ghost function S(): State reads this { State(entries, created) }

    ghost predicate Valid() reads this { Inv(S()) }

    constructor ()
      ensures Valid() && S() == State(EmptyMap(), [])
    {
      entries := EmptyMap();
      created := [];
    }

    method GetOrLoad(acpId: string, baseKey: string, initialRevision: string) returns (ticket: nat, status: Status)
      requires Valid()
      modifies this
      ensures Valid() && S() == Requested(old(S()), Key(acpId, baseKey, initialRevision))
      ensures ticket < |created|
      ensures status == Miss <==> ticket == |old(created)|
      ensures status != Miss ==> RightKey(Key(acpId, baseKey, initialRevision), created[ticket])
      ensures status == Hit <==> created[ticket].settled
    {
      var initialKey := Key(acpId, baseKey, initialRevision);
      RequestedKeepsInv(S(), initialKey);
      if entries.Has(initialKey) {
        ticket := entries.at[initialKey];
        entries := entries.Delete(initialKey);
        entries := entries.Put(initialKey, ticket);
        status := if created[ticket].settled then Hit else Coalesced;
        return;
      }
      ticket := |created|;
      created := created + [Entry(initialKey, false, Pending)];
      PutValid(entries, initialKey, ticket);
      SetBounded(initialKey, ticket);
      status := Miss;
    }

    method SetBounded(key: Key, ticket: nat)
      requires entries.Valid()
      modifies this`entries
      ensures entries == Evict(old(entries).Put(key, ticket), MAX_ENTRIES)
    {
      PutValid(entries, key, ticket);
      entries := entries.Put(key, ticket);
      entries := EvictOldest(entries, MAX_ENTRIES);
    }

    /** The continuation of a load. */
    method Settle(ticket: nat, value: CacheValue)
      requires Valid() && ticket < |created| && created[ticket].promise.Pending?
      modifies this
      ensures Valid() && S() == Loaded(old(S()), ticket, value)
    {
      LoadedKeepsInv(S(), ticket, value);
      var initialKey := created[ticket].initialKey;
      created := created[ticket := Entry(initialKey, true, Fulfilled(value))];
      var finalKey := initialKey.(revision := value.rowRevision);
      if finalKey != initialKey && entries.Has(initialKey) && entries.at[initialKey] == ticket {
        DeleteValid(entries, initialKey);
        entries := entries.Delete(initialKey);
        if !entries.Has(finalKey) {
          SetBounded(finalKey, ticket);
        }
      }
    }

    method Fail(ticket: nat, error: string)
      requires Valid() && ticket < |created| && created[ticket].promise.Pending?
      modifies this
      ensures Valid() && S() == LoadFailed(old(S()), ticket, error)
    {
      LoadFailedKeepsInv(S(), ticket, error);
      var initialKey := created[ticket].initialKey;
      if entries.Has(initialKey) && entries.at[initialKey] == ticket {
        entries := entries.Delete(initialKey);
      }
      created := created[ticket := created[ticket].(promise := Rejected(error))];
    }

    method Invalidate(acpId: string)
      requires Valid()
      modifies this`entries
      ensures Valid() && S() == Invalidated(old(S()), acpId)
    {
      InvalidatedKeepsInv(S(), acpId);
      entries := DeleteWhere(entries, (k: Key) => k.acpId == acpId);
    }
  }
}
