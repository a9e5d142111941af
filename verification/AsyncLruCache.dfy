/** backend/src/files/async-lru-cache.ts: a bounded cache of loads in flight and of their
    results. JavaScript runs the code between two `await`s without interruption, so the
    concurrent behaviour is a run of such segments in any order. */
module AsyncLruCaches {
  import opened JsMaps

  datatype Outcome<V> = Pending | Value(value: V, cacheable: bool) | Failed(error: string)

  /** A cache entry: the key it was created for, its `settled` flag and its promise. */
  datatype Entry<K, V> = Entry(key: K, settled: bool, promise: Outcome<V>)

  datatype Status = Hit | Miss | Coalesced

  /** The cache's map holds tickets, a ticket being the creation number of an entry; two
      entries are the same object exactly if their tickets are equal. */
  datatype State<K(!new, ==), V> = State(entries: JsMap<K, nat>, created: seq<Entry<K, V>>)

  // ---------------------------------------------------------------- segments as functions

  /** `getOrLoad` up to its `await`. */
  function Call<K(!new, ==), V>(s: State<K, V>, maxEntries: nat, key: K): State<K, V> {
    if s.entries.Has(key) then
      s.(entries := s.entries.Delete(key).Put(key, s.entries.at[key]))
    else
      State(Evict(s.entries.Put(key, |s.created|), maxEntries),
            s.created + [Entry(key, false, Pending)])
  }

  /** The continuation of a load that produced a value. */
  function Fulfil<K(!new, ==), V>(s: State<K, V>, ticket: nat, value: V, cacheable: bool): State<K, V>
    requires ticket < |s.created|
  {
    var e := s.created[ticket];
    State(if cacheable then s.entries else DeleteIfCurrent(s.entries, e.key, ticket),
          s.created[ticket := Entry(e.key, cacheable, Value(value, cacheable))])
  }

  /** The continuation of a load that threw. */
  function Reject<K(!new, ==), V>(s: State<K, V>, ticket: nat, error: string): State<K, V>
    requires ticket < |s.created|
  {
    var e := s.created[ticket];
    State(DeleteIfCurrent(s.entries, e.key, ticket), s.created[ticket := e.(promise := Failed(error))])
  }

  // ------------------------------------------------------------------------------- runs

  datatype Event<!K, V> =
    | EvCall(key: K)
    | EvFulfil(ticket: nat, value: V, cacheable: bool)
    | EvReject(ticket: nat, error: string)
    | EvDelete(key: K)
    | EvDeleteWhere(selected: K -> bool)
    | EvClear

  /** A load settles once. */
  ghost predicate Enabled<K(!new), V>(s: State<K, V>, e: Event<K, V>) {
    match e
    case EvFulfil(t, _, _) => t < |s.created| && s.created[t].promise.Pending?
    case EvReject(t, _) => t < |s.created| && s.created[t].promise.Pending?
    case _ => true
  }

  ghost function Step<K(!new), V>(s: State<K, V>, maxEntries: nat, e: Event<K, V>): State<K, V>
    requires Enabled(s, e)
  {
    match e
    case EvCall(key) => Call(s, maxEntries, key)
    case EvFulfil(t, v, c) => Fulfil(s, t, v, c)
    case EvReject(t, err) => Reject(s, t, err)
    case EvDelete(key) => s.(entries := s.entries.Delete(key))
    case EvDeleteWhere(sel) => s.(entries := DeleteSelected(s.entries, sel))
    case EvClear => s.(entries := EmptyMap())
  }

  ghost predicate Run<K(!new), V(!new)>(states: seq<State<K, V>>, events: seq<Event<K, V>>, maxEntries: nat) {
    && |states| == |events| + 1
    && (forall i :: 0 <= i < |events| ==>
          Enabled(states[i], events[i]) && states[i + 1] == Step(states[i], maxEntries, events[i]))
  }

  ghost predicate StartsEmpty<K(!new), V>(states: seq<State<K, V>>) {
    0 < |states| && states[0] == State(EmptyMap(), [])
  }

  // -------------------------------------------------------------------------- invariant

  /** The bound, one key per entry, and: what is stored is a load still running or a settled,
      cacheable value. */
  ghost predicate Inv<K(!new), V>(s: State<K, V>, maxEntries: nat) {
    && s.entries.Valid()
    && s.entries.Size() <= maxEntries
    && (forall k :: k in s.entries.at ==>
          && s.entries.at[k] < |s.created|
          && var e := s.created[s.entries.at[k]];
             e.key == k && (e.promise.Pending? || (e.promise.Value? && e.promise.cacheable && e.settled)))
    && (forall t :: 0 <= t < |s.created| ==>
          (s.created[t].settled <==> s.created[t].promise.Value? && s.created[t].promise.cacheable))
  }

  /** What one segment may do to the entries that exist already: none comes back into the map,
      settled promises keep their outcome and tickets keep their key. */
  ghost predicate Monotone<K(!new), V(!new)>(s: State<K, V>, s': State<K, V>) {
    && |s.created| <= |s'.created|
    && (forall k :: k in s'.entries.at && s'.entries.at[k] < |s.created| ==>
          k in s.entries.at && s.entries.at[k] == s'.entries.at[k])
    && (forall t :: 0 <= t < |s.created| ==>
          && s'.created[t].key == s.created[t].key
          && (!s.created[t].promise.Pending? ==> s'.created[t].promise == s.created[t].promise))
  }

  lemma CallKeepsInv<K(!new), V(!new)>(s: State<K, V>, maxEntries: nat, key: K)
    requires Inv(s, maxEntries) && 1 <= maxEntries
    ensures Inv(Call(s, maxEntries, key), maxEntries) && Monotone(s, Call(s, maxEntries, key))
  {
    if s.entries.Has(key) {
      TouchValid(s.entries, key, s.entries.at[key]);
      DeleteValid(s.entries, key);
    } else {
      PutValid(s.entries, key, |s.created|);
      EvictShape(s.entries.Put(key, |s.created|), maxEntries);
    }
  }

  lemma FulfilKeepsInv<K(!new), V(!new)>(s: State<K, V>, maxEntries: nat, t: nat, value: V, cacheable: bool)
    requires Inv(s, maxEntries) && t < |s.created| && s.created[t].promise.Pending?
    ensures Inv(Fulfil(s, t, value, cacheable), maxEntries) && Monotone(s, Fulfil(s, t, value, cacheable))
  {
    DeleteValid(s.entries, s.created[t].key);
  }

  lemma RejectKeepsInv<K(!new), V(!new)>(s: State<K, V>, maxEntries: nat, t: nat, error: string)
    requires Inv(s, maxEntries) && t < |s.created| && s.created[t].promise.Pending?
    ensures Inv(Reject(s, t, error), maxEntries) && Monotone(s, Reject(s, t, error))
  {
    DeleteValid(s.entries, s.created[t].key);
  }

  lemma RemovalKeepsInv<K(!new), V(!new)>(s: State<K, V>, maxEntries: nat, entries: JsMap<K, nat>)
    requires Inv(s, maxEntries) && entries.Valid() && entries.Size() <= s.entries.Size()
    requires forall k :: k in entries.at ==> k in s.entries.at && entries.at[k] == s.entries.at[k]
    ensures Inv(s.(entries := entries), maxEntries) && Monotone(s, s.(entries := entries))
  {
  }

  lemma StepKeepsInv<K(!new), V(!new)>(s: State<K, V>, maxEntries: nat, e: Event<K, V>)
    requires Inv(s, maxEntries) && 1 <= maxEntries && Enabled(s, e)
    ensures Inv(Step(s, maxEntries, e), maxEntries)
    ensures Monotone(s, Step(s, maxEntries, e))
  {
    match e
    case EvCall(key) => CallKeepsInv(s, maxEntries, key);
    case EvFulfil(t, value, cacheable) => FulfilKeepsInv(s, maxEntries, t, value, cacheable);
    case EvReject(t, error) => RejectKeepsInv(s, maxEntries, t, error);
    case EvDelete(key) =>
      DeleteValid(s.entries, key);
      RemovalKeepsInv(s, maxEntries, s.entries.Delete(key));
    case EvDeleteWhere(selected) =>
      DeleteSelectedShape(s.entries, selected);
      RemovalKeepsInv(s, maxEntries, DeleteSelected(s.entries, selected));
    case EvClear => RemovalKeepsInv(s, maxEntries, EmptyMap());
  }

  /** In every interleaving, every state keeps the bound and stores no failed and no
      uncacheable result. */
  lemma {:induction false} EveryStateIsSound<K(!new), V(!new)>(
      states: seq<State<K, V>>, events: seq<Event<K, V>>, maxEntries: nat, n: nat)
    requires Run(states, events, maxEntries) && StartsEmpty(states) && 1 <= maxEntries && n < |states|
    ensures Inv(states[n], maxEntries)
  {
    if n > 0 {
      EveryStateIsSound(states, events, maxEntries, n - 1);
      StepKeepsInv(states[n - 1], maxEntries, events[n - 1]);
    }
  }

  lemma MonotoneTwice<K(!new), V(!new)>(a: State<K, V>, b: State<K, V>, c: State<K, V>)
    requires Monotone(a, b) && Monotone(b, c)
    ensures Monotone(a, c)
  {
  }

  /** An entry that is out of the map stays out of it, and a caller that holds a ticket is
      answered with the one outcome that its load ever gets. */
  lemma {:induction false} GoneForGood<K(!new), V(!new)>(
      states: seq<State<K, V>>, events: seq<Event<K, V>>, maxEntries: nat, i: nat, n: nat)
    requires Run(states, events, maxEntries) && StartsEmpty(states) && 1 <= maxEntries && i <= n < |states|
    ensures Monotone(states[i], states[n])
  {
    if i < n {
      GoneForGood(states, events, maxEntries, i, n - 1);
      EveryStateIsSound(states, events, maxEntries, n - 1);
      StepKeepsInv(states[n - 1], maxEntries, events[n - 1]);
      assert states[n] == Step(states[n - 1], maxEntries, events[n - 1]);
      MonotoneTwice(states[i], states[n - 1], states[n]);
    }
  }

  /** The completion of one load leaves every other entry where it is, in particular the
      successor stored under the same key after a deletion or an eviction. */
  lemma CompletionTouchesOnlyItsEntry<K(!new), V(!new)>(s: State<K, V>, maxEntries: nat, e: Event<K, V>, k: K)
    requires Inv(s, maxEntries) && Enabled(s, e) && (e.EvFulfil? || e.EvReject?)
    requires k in s.entries.at && s.entries.at[k] != e.ticket
    ensures var s' := Step(s, maxEntries, e);
      && k in s'.entries.at && s'.entries.at[k] == s.entries.at[k]
      && s'.created[s'.entries.at[k]] == s.created[s.entries.at[k]]
  {
  }

  /** Whether a segment that is no call takes a key out of the map: a failed or uncacheable load takes out
      its own entry and no other. */
  ghost predicate Removes<K(!new), V>(s: State<K, V>, e: Event<K, V>, k: K) {
    match e
    case EvCall(_) => false
    case EvFulfil(t, _, cacheable) => !cacheable && s.entries.Has(k) && s.entries.at[k] == t
    case EvReject(t, _) => s.entries.Has(k) && s.entries.at[k] == t
    case EvDelete(key) => k == key
    case EvDeleteWhere(selected) => selected(k)
    case EvClear => true
  }

  /** Every other key stays with its entry. */
  lemma RemovalsAreExact<K(!new), V(!new)>(s: State<K, V>, maxEntries: nat, e: Event<K, V>, k: K)
    requires Inv(s, maxEntries) && Enabled(s, e) && !e.EvCall?
    ensures var s' := Step(s, maxEntries, e);
      && (k in s'.entries.at <==> k in s.entries.at && !Removes(s, e, k))
      && (k in s'.entries.at ==> s'.entries.at[k] == s.entries.at[k])
  {
  }

  /** A call finds the entry of its key or makes one; it is then the youngest, and beside a new one stay as
      many of the youngest others as there is room for. */
  lemma CallIsStored<K(!new), V(!new)>(s: State<K, V>, maxEntries: nat, key: K)
    requires Inv(s, maxEntries) && 1 <= maxEntries
    ensures var s' := Call(s, maxEntries, key);
      && s'.entries.Has(key)
      && s'.entries.order == (if s.entries.Has(key) then Without(s.entries.order, key) else Last(s.entries.order, maxEntries - 1)) + [key]
      && (if s.entries.Has(key) then s'.entries.at[key] == s.entries.at[key] && s'.created == s.created
          else s'.entries.at[key] == |s.created| && s'.created == s.created + [Entry(key, false, Pending)])
      && forall k :: k in s'.entries.at && k != key ==> k in s.entries.at && s'.entries.at[k] == s.entries.at[k]
  {
    if s.entries.Has(key) {
      TouchValid(s.entries, key, s.entries.at[key]);
    } else {
      PutAndEvict(s.entries, key, |s.created|, maxEntries);
    }
  }

  /** From the end of its load on an entry has the outcome of the load, in every run. */
  lemma LoadsAreAnswered<K(!new), V(!new)>(
      states: seq<State<K, V>>, events: seq<Event<K, V>>, maxEntries: nat, i: nat, n: nat)
    requires Run(states, events, maxEntries) && StartsEmpty(states) && 1 <= maxEntries && i < n < |states|
    ensures match events[i] {
      case EvFulfil(t, value, cacheable) => t < |states[n].created| && states[n].created[t].promise == Value(value, cacheable)
      case EvReject(t, error) => t < |states[n].created| && states[n].created[t].promise == Failed(error)
      case _ => true
    }
  {
    GoneForGood(states, events, maxEntries, i + 1, n);
    assert states[i + 1] == Step(states[i], maxEntries, events[i]);
  }

  // ------------------------------------------------------------------------- LRU order

  /** The number of events up to the last use of a key, 0 if it was not used. */
  ghost function LastUse<K(!new), V>(events: seq<Event<K, V>>, k: K): (n: nat)
    ensures n <= |events|
  {
    if events == [] then 0
    else
      var n := |events| - 1;
      if events[n].EvCall? && events[n].key == k then n + 1 else LastUse(events[..n], k)
  }

  ghost predicate Ascending<K(!new)>(order: seq<K>, f: K -> nat) {
    && (forall i :: 0 <= i < |order| ==> 0 < f(order[i]))
    && (forall i, j :: 0 <= i < j < |order| ==> f(order[i]) < f(order[j]))
  }

  /** The keys have been used, the first one longest ago. */
  ghost predicate LeastRecentFirst<K(!new), V>(order: seq<K>, events: seq<Event<K, V>>) {
    Ascending(order, k => LastUse(events, k))
  }

  lemma WithoutAscends<K(!new)>(order: seq<K>, k: K, f: K -> nat)
    requires Ascending(order, f)
    ensures Ascending(Without(order, k), f)
  {
  }

  lemma AscendsTo<K(!new)>(order: seq<K>, k: K, f: K -> nat)
    requires Ascending(order, f) && 0 < f(k) && forall x :: x in order ==> f(x) < f(k)
    ensures Ascending(order + [k], f)
  {
    forall i | 0 <= i < |order| ensures f(order[i]) < f(k) {
      assert order[i] in order;
    }
  }

  lemma {:induction false} UnselectedAscends<K(!new)>(order: seq<K>, selected: K -> bool, f: K -> nat)
    requires Ascending(order, f)
    ensures Ascending(Unselected(order, selected), f)
    ensures forall k :: k in Unselected(order, selected) ==> k in order
  {
    if order != [] {
      var n := |order| - 1;
      var rest := Unselected(order[..n], selected);
      UnselectedAscends(order[..n], selected, f);
      forall k | k in rest ensures f(k) < f(order[n]) && k in order {
        var i :| 0 <= i < n && order[..n][i] == k;
        assert order[i] == k;
      }
      AscendsTo(rest, order[n], f);
      assert rest + [] == rest;
    }
  }

  lemma LastAscends<K(!new)>(order: seq<K>, n: nat, f: K -> nat)
    requires Ascending(order, f)
    ensures Ascending(Last(order, n), f)
  {
  }

  /** Using a key makes it the most recently used one and leaves the others as they were. */
  lemma UsedLast<K(!new), V(!new)>(rest: seq<K>, events: seq<Event<K, V>>, key: K)
    requires LeastRecentFirst(rest, events) && key !in rest
    ensures LeastRecentFirst(rest + [key], events + [EvCall(key)])
  {
    var events' := events + [EvCall(key)];
    assert events'[..|events|] == events;
    assert LastUse(events', key) == |events| + 1;
    forall i | 0 <= i < |rest| ensures LastUse(events', rest[i]) == LastUse(events, rest[i]) <= |events| {
      assert rest[i] in rest;
    }
  }

  lemma CallKeepsOrder<K(!new), V(!new)>(s: State<K, V>, maxEntries: nat, key: K, events: seq<Event<K, V>>)
    requires s.entries.Valid() && LeastRecentFirst(s.entries.order, events)
    ensures LeastRecentFirst(Call(s, maxEntries, key).entries.order, events + [EvCall(key)])
  {
    var rest := Without(s.entries.order, key);
    WithoutMembers(s.entries.order, key);
    WithoutAscends(s.entries.order, key, k => LastUse(events, k));
    UsedLast(rest, events, key);
    if s.entries.Has(key) {
      TouchValid(s.entries, key, s.entries.at[key]);
    } else {
      assert key !in s.entries.order && rest == s.entries.order;
      LastAscends(rest + [key], maxEntries, k => LastUse(events + [EvCall(key)], k));
    }
  }

  lemma OtherEvent<K(!new), V(!new)>(order: seq<K>, events: seq<Event<K, V>>, e: Event<K, V>)
    requires LeastRecentFirst(order, events) && !e.EvCall?
    ensures LeastRecentFirst(order, events + [e])
  {
    assert (events + [e])[..|events|] == events;
    forall k ensures LastUse(events + [e], k) == LastUse(events, k) {
    }
  }

  /** Everything but a call only takes keys out. */
  lemma StepKeepsOrder<K(!new), V(!new)>(s: State<K, V>, maxEntries: nat, e: Event<K, V>, events: seq<Event<K, V>>)
    requires s.entries.Valid() && LeastRecentFirst(s.entries.order, events) && Enabled(s, e)
    ensures LeastRecentFirst(Step(s, maxEntries, e).entries.order, events + [e])
  {
    var lastUse := k => LastUse(events, k);
    match e
    case EvCall(key) => CallKeepsOrder(s, maxEntries, key, events);
    case EvFulfil(t, _, _) =>
      WithoutAscends(s.entries.order, s.created[t].key, lastUse);
      OtherEvent(Step(s, maxEntries, e).entries.order, events, e);
    case EvReject(t, _) =>
      WithoutAscends(s.entries.order, s.created[t].key, lastUse);
      OtherEvent(Step(s, maxEntries, e).entries.order, events, e);
    case EvDelete(key) =>
      WithoutAscends(s.entries.order, key, lastUse);
      OtherEvent(Step(s, maxEntries, e).entries.order, events, e);
    case EvDeleteWhere(selected) =>
      UnselectedAscends(s.entries.order, selected, lastUse);
      OtherEvent(Step(s, maxEntries, e).entries.order, events, e);
    case EvClear => OtherEvent([], events, e);
  }

  /** In every interleaving of calls, completions, failures, deletions and clears the map lists
      its keys in the order of their last use. */
  lemma {:induction false} OrderIsRecency<K(!new), V(!new)>(
      states: seq<State<K, V>>, events: seq<Event<K, V>>, maxEntries: nat, n: nat)
    requires Run(states, events, maxEntries) && StartsEmpty(states) && 1 <= maxEntries && n <= |events|
    ensures LeastRecentFirst(states[n].entries.order, events[..n])
  {
    if n > 0 {
      OrderIsRecency(states, events, maxEntries, n - 1);
      EveryStateIsSound(states, events, maxEntries, n - 1);
      StepKeepsOrder(states[n - 1], maxEntries, events[n - 1], events[..n - 1]);
      assert events[..n] == events[..n - 1] + [events[n - 1]];
    }
  }

  // ------------------------------------------------------------- runs without removals

  /** The distinct keys of a list of uses, least recently used first. */
  ghost function Recency<K(!new)>(uses: seq<K>): seq<K> {
    if uses == [] then []
    else Without(Recency(uses[..|uses| - 1]), uses[|uses| - 1]) + [uses[|uses| - 1]]
  }

  ghost function Uses<K(!new), V>(events: seq<Event<K, V>>): seq<K> {
    if events == [] then []
    else
      var e := events[|events| - 1];
      Uses(events[..|events| - 1]) + if e.EvCall? then [e.key] else []
  }

  ghost predicate NothingRemoved<K(!new), V>(events: seq<Event<K, V>>) {
    forall e :: e in events ==> e.EvCall? || (e.EvFulfil? && e.cacheable)
  }

  lemma {:induction false} RecencyDistinct<K(!new)>(uses: seq<K>)
    ensures Distinct(Recency(uses))
  {
    if uses != [] {
      RecencyDistinct(uses[..|uses| - 1]);
      WithoutMembers(Recency(uses[..|uses| - 1]), uses[|uses| - 1]);
    }
  }

  /** Removing a key takes it from whichever half of a sequence it is in. */
  lemma WithoutInTail<K(!new)>(front: seq<K>, tail: seq<K>, i: nat)
    requires Distinct(front + tail) && i < |tail|
    ensures Distinct(tail) && Without(front + tail, tail[i]) == front + Without(tail, tail[i])
  {
    var s := front + tail;
    assert forall x :: 0 <= x < |tail| ==> tail[x] == s[|front| + x];
    WithoutAt(tail, i);
    WithoutAt(s, |front| + i);
    assert s[..|front| + i] == front + tail[..i];
    assert s[|front| + i + 1..] == tail[i + 1..];
  }

  lemma WithoutInFront<K(!new)>(front: seq<K>, tail: seq<K>, i: nat)
    requires Distinct(front + tail) && i < |front|
    ensures Distinct(front) && Without(front + tail, front[i]) == front[..i] + front[i + 1..] + tail
  {
    var s := front + tail;
    assert forall x :: 0 <= x < |front| ==> front[x] == s[x];
    WithoutAt(s, i);
    assert s[..i] == front[..i];
    assert s[i + 1..] == front[i + 1..] + tail;
  }

  lemma LastOfTail<K>(front: seq<K>, tail: seq<K>, n: nat)
    requires n <= |tail| || front == []
    ensures Last(front + tail, n) == Last(tail, n)
  {
    if n <= |tail| {
      assert (front + tail)[|front| + |tail| - n..] == tail[|tail| - n..];
    } else {
      assert front + tail == tail;
    }
  }

  lemma UseInTail<K(!new)>(front: seq<K>, tail: seq<K>, n: nat, i: nat)
    requires Distinct(front + tail) && i < |tail| <= n
    requires |tail| == n || front == []
    ensures Last(Without(front + tail, tail[i]) + [tail[i]], n) == Without(tail, tail[i]) + [tail[i]]
  {
    var k := tail[i];
    WithoutInTail(front, tail, i);
    WithoutAt(tail, i);
    assert Without(front + tail, k) + [k] == front + (Without(tail, k) + [k]);
    LastOfTail(front, Without(tail, k) + [k], n);
  }

  lemma UseOutsideTail<K(!new)>(front: seq<K>, tail: seq<K>, n: nat, k: K)
    requires Distinct(front + tail) && k !in tail && |tail| <= n
    requires |tail| == n || front == []
    ensures Last(Without(front + tail, k) + [k], n) == Last(tail + [k], n)
  {
    if k in front {
      var i := IndexOf(front, k);
      WithoutInFront(front, tail, i);
      var front' := front[..i] + front[i + 1..];
      assert Without(front + tail, k) + [k] == front' + (tail + [k]);
      LastOfTail(front', tail + [k], n);
    } else {
      assert Without(front + tail, k) + [k] == front + (tail + [k]);
      LastOfTail(front, tail + [k], n);
    }
  }

  /** Using a key on the last `n` keys of the recency list gives the last `n` keys of the new
      recency list. */
  lemma LastAfterUse<K(!new)>(r: seq<K>, n: nat, k: K)
    requires Distinct(r) && 1 <= n
    ensures Last(Without(r, k) + [k], n)
         == (if k in Last(r, n) then Without(Last(r, n), k) + [k] else Last(Last(r, n) + [k], n))
  {
    var cut := if |r| <= n then 0 else |r| - n;
    var front, tail := r[..cut], r[cut..];
    assert r == front + tail && Last(r, n) == tail;
    if k in tail {
      UseInTail(front, tail, n, IndexOf(tail, k));
    } else {
      UseOutsideTail(front, tail, n, k);
    }
  }

  lemma UseStep<K(!new), V(!new)>(s: State<K, V>, uses: seq<K>, maxEntries: nat, key: K)
    requires Inv(s, maxEntries) && 1 <= maxEntries
    requires s.entries.order == Last(Recency(uses), maxEntries)
    ensures Call(s, maxEntries, key).entries.order == Last(Recency(uses + [key]), maxEntries)
  {
    assert (uses + [key])[..|uses|] == uses;
    RecencyDistinct(uses);
    LastAfterUse(Recency(uses), maxEntries, key);
    if s.entries.Has(key) {
      TouchValid(s.entries, key, s.entries.at[key]);
    } else {
      PutValid(s.entries, key, |s.created|);
      EvictShape(s.entries.Put(key, |s.created|), maxEntries);
    }
  }

  /** As long as nothing is deleted and nothing fails, the map holds the `maxEntries` most
      recently requested keys, in the order of their last use. */
  lemma {:induction false} KeepsMostRecentlyUsed<K(!new), V(!new)>(
      states: seq<State<K, V>>, events: seq<Event<K, V>>, maxEntries: nat)
    requires Run(states, events, maxEntries) && StartsEmpty(states) && 1 <= maxEntries
    requires NothingRemoved(events)
    ensures states[|events|].entries.order == Last(Recency(Uses(events)), maxEntries)
  {
    if events != [] {
      var n := |events| - 1;
      assert Run(states[..n + 1], events[..n], maxEntries);
      KeepsMostRecentlyUsed(states[..n + 1], events[..n], maxEntries);
      EveryStateIsSound(states, events, maxEntries, n);
      var e := events[n];
      assert e in events && (forall x :: x in events[..n] ==> x in events);
      assert states[..n + 1][n] == states[n];
      if e.EvCall? {
        UseStep(states[n], Uses(events[..n]), maxEntries, e.key);
        assert Uses(events) == Uses(events[..n]) + [e.key];
      } else {
        assert Uses(events) == Uses(events[..n]);
      }
    }
  }

  // ------------------------------------------------------------------------ the class

  class AsyncLruCache<K(!new, ==), V(!new)> {
    const maxEntries: nat
    var entries: JsMap<K, nat>
    var created: seq<Entry<K, V>>

    ghost predicate Valid() reads this { 1 <= maxEntries && Inv(S(), maxEntries) }

    ghost function S(): State<K, V> reads this { State(entries, created) }

    constructor (maxEntries: nat)
      requires 1 <= maxEntries
      ensures Valid() && S() == State(EmptyMap(), []) && this.maxEntries == maxEntries
    {
      this.maxEntries := maxEntries;
      entries := EmptyMap();
      created := [];
    }

    method GetOrLoad(key: K) returns (ticket: nat, status: Status)
      requires Valid()
      modifies this
      ensures Valid() && S() == Call(old(S()), maxEntries, key)
      ensures ticket < |created| && created[ticket].key == key
      ensures status == Miss <==> ticket == |old(created)|
      ensures status == Hit <==> created[ticket].settled
      ensures status == Hit ==> created[ticket].promise.Value?
      ensures status == Coalesced ==> created[ticket].promise.Pending?
    {
      CallKeepsInv(S(), maxEntries, key);
      if entries.Has(key) {
        ticket := entries.at[key];
        entries := entries.Delete(key);
        entries := entries.Put(key, ticket);
        status := if created[ticket].settled then Hit else Coalesced;
        return;
      }
      ticket := |created|;
      created := created + [Entry(key, false, Pending)];
      entries := entries.Put(key, ticket);
      PutValid(old(entries), key, ticket);
      entries := EvictOldest(entries, maxEntries);
      status := Miss;
    }

    method Resolve(ticket: nat, value: V, cacheable: bool)
      requires Valid() && ticket < |created| && created[ticket].promise.Pending?
      modifies this
      ensures Valid() && S() == Fulfil(old(S()), ticket, value, cacheable)
    {
      StepKeepsInv(S(), maxEntries, EvFulfil(ticket, value, cacheable));
      var key := created[ticket].key;
      if !cacheable {
        DropIfCurrent(key, ticket);
      }
      created := created[ticket := Entry(key, cacheable, Value(value, cacheable))];
    }

    method Fail(ticket: nat, error: string)
      requires Valid() && ticket < |created| && created[ticket].promise.Pending?
      modifies this
      ensures Valid() && S() == Reject(old(S()), ticket, error)
    {
      StepKeepsInv(S(), maxEntries, EvReject(ticket, error));
      DropIfCurrent(created[ticket].key, ticket);
      created := created[ticket := created[ticket].(promise := Failed(error))];
    }

    method DropIfCurrent(key: K, ticket: nat)
      modifies this`entries
      ensures entries == DeleteIfCurrent(old(entries), key, ticket)
    {
      if entries.Has(key) && entries.at[key] == ticket {
        entries := entries.Delete(key);
      }
    }

    method Delete(key: K) returns (existed: bool)
      requires Valid()
      modifies this`entries
      ensures Valid() && entries == old(entries).Delete(key)
      ensures existed == old(entries).Has(key)
    {
      StepKeepsInv(S(), maxEntries, EvDelete(key));
      existed := entries.Has(key);
      entries := entries.Delete(key);
    }

    method DeleteWhere(selected: K -> bool)
      requires Valid()
      modifies this`entries
      ensures Valid() && entries == DeleteSelected(old(entries), selected)
    {
      StepKeepsInv(S(), maxEntries, EvDeleteWhere(selected));
      entries := JsMaps.DeleteWhere(entries, selected);
    }

    method Clear()
      requires Valid()
      modifies this`entries
      ensures Valid() && entries == EmptyMap()
    {
      entries := EmptyMap();
    }
  }
}
