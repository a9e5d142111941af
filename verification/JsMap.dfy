/** The insertion-ordered `Map` of ECMAScript, on which every cache of the backend is built:
    iteration visits keys in the order in which they were first set, and a key keeps its
    place when its value is replaced. */
module JsMaps {

  /** The keys in iteration order, and the value stored under each of them. */
  datatype JsMap<K(!new, ==), V> = JsMap(order: seq<K>, at: map<K, V>) {

    ghost predicate Valid() {
      && Distinct(order)
      && (forall k :: k in order <==> k in at)
    }

    predicate Has(k: K) { k in at }

    function Size(): nat { |order| }

    /** `map.set(k, v)` */
    function Put(k: K, v: V): JsMap<K, V> {
      JsMap(if k in at then order else order + [k], at[k := v])
    }

    /** `map.delete(k)` */
    function Delete(k: K): JsMap<K, V> {
      JsMap(Without(order, k), at - {k})
    }
  }

  function EmptyMap<K(!new, ==), V>(): JsMap<K, V> { JsMap([], map[]) }

  ghost predicate Distinct<K>(s: seq<K>) {
    forall i, j :: 0 <= i < j < |s| ==> s[i] != s[j]
  }

  function IndexOf<K(!new, ==)>(s: seq<K>, k: K): (i: nat)
    requires k in s
    ensures i < |s| && s[i] == k
    ensures forall j :: 0 <= j < i ==> s[j] != k
  {
    if s[0] == k then 0 else 1 + IndexOf(s[1..], k)
  }

  /** The sequence without the first occurrence of `k`. */
  function Without<K(!new, ==)>(s: seq<K>, k: K): seq<K> {
    if k in s then s[..IndexOf(s, k)] + s[IndexOf(s, k) + 1..] else s
  }

  lemma WithoutIndex<K(!new)>(s: seq<K>, k: K, j: nat)
    requires k in s && j < |s| - 1
    ensures |Without(s, k)| == |s| - 1 && Without(s, k)[j] == s[if j < IndexOf(s, k) then j else j + 1]
  {
  }

  lemma WithoutMember<K(!new)>(s: seq<K>, k: K, x: K)
    requires Distinct(s) && k in s
    ensures x in Without(s, k) <==> x in s && x != k
  {
    var i := IndexOf(s, k);
    if x in Without(s, k) {
      var j :| 0 <= j < |Without(s, k)| && Without(s, k)[j] == x;
      WithoutIndex(s, k, j);
      assert s[if j < i then j else j + 1] == x;
    }
    if x in s && x != k {
      var j :| 0 <= j < |s| && s[j] == x;
      WithoutIndex(s, k, if j < i then j else j - 1);
    }
  }

  lemma WithoutDistinct<K(!new)>(s: seq<K>, k: K)
    requires Distinct(s) && k in s
    ensures Distinct(Without(s, k))
  {
    forall a, b | 0 <= a < b < |Without(s, k)| ensures Without(s, k)[a] != Without(s, k)[b] {
      WithoutIndex(s, k, a);
      WithoutIndex(s, k, b);
    }
  }

  lemma WithoutMembers<K(!new)>(s: seq<K>, k: K)
    requires Distinct(s)
    ensures Distinct(Without(s, k))
    ensures forall x :: x in Without(s, k) <==> x in s && x != k
  {
    if k in s {
      WithoutDistinct(s, k);
      forall x ensures x in Without(s, k) <==> x in s && x != k { WithoutMember(s, k, x); }
    }
  }

  lemma PutValid<K(!new), V>(m: JsMap<K, V>, k: K, v: V)
    requires m.Valid()
    ensures m.Put(k, v).Valid()
  {
  }

  lemma DeleteValid<K(!new), V>(m: JsMap<K, V>, k: K)
    requires m.Valid()
    ensures m.Delete(k).Valid()
    ensures m.Delete(k).Size() == if m.Has(k) then m.Size() - 1 else m.Size()
  {
    WithoutMembers(m.order, k);
  }

  /** Deleting and setting again moves a key behind all others. */
  lemma TouchValid<K(!new), V>(m: JsMap<K, V>, k: K, v: V)
    requires m.Valid() && m.Has(k)
    ensures m.Delete(k).Put(k, v).Valid()
    ensures m.Delete(k).Put(k, v) == JsMap(Without(m.order, k) + [k], m.at[k := v])
  {
    WithoutMembers(m.order, k);
    assert (m.at - {k})[k := v] == m.at[k := v];
  }

  lemma WithoutAt<K(!new)>(s: seq<K>, i: nat)
    requires Distinct(s) && i < |s|
    ensures Without(s, s[i]) == s[..i] + s[i + 1..]
  {
    var j := IndexOf(s, s[i]);
    assert j == i by { assert s[j] == s[i]; }
  }

  // -------------------------------------------------------------------------- eviction

  function Last<K>(s: seq<K>, n: nat): seq<K> {
    if |s| <= n then s else s[|s| - n..]
  }

  /** Eviction: only the youngest `bound` entries are left. */
  function Evict<K(!new, ==), V>(m: JsMap<K, V>, bound: nat): JsMap<K, V> {
    var kept := Last(m.order, bound);
    JsMap(kept, map k | k in kept && k in m.at :: m.at[k])
  }

  lemma DropOldest<K(!new), V>(m: JsMap<K, V>)
    requires m.Valid() && m.Size() > 0
    ensures JsMap(m.order[1..], m.at - {m.order[0]}).Valid()
    ensures m.Delete(m.order[0]) == JsMap(m.order[1..], m.at - {m.order[0]})
  {
    var k := m.order[0];
    assert IndexOf(m.order, k) == 0;
    assert m.order[..0] + m.order[1..] == m.order[1..];
    DeleteValid(m, k);
  }

  lemma EvictShape<K(!new), V>(m: JsMap<K, V>, bound: nat)
    requires m.Valid()
    ensures Evict(m, bound).Valid()
    ensures Evict(m, bound).Size() <= bound
    ensures m.Size() <= bound ==> Evict(m, bound) == m
  {
    var r := Evict(m, bound);
    forall k | k in r.order ensures k in m.at {
      assert k in m.order;
    }
  }

  /** A new key is stored as the youngest; with it stay as many of the youngest others as there is room for. */
  lemma PutAndEvict<K(!new), V>(m: JsMap<K, V>, k: K, v: V, bound: nat)
    requires m.Valid() && !m.Has(k) && bound > 0
    ensures var r := Evict(m.Put(k, v), bound);
      && r.Valid() && r.Size() <= bound && r.order == Last(m.order, bound - 1) + [k]
      && r.Has(k) && r.at[k] == v && forall x :: x in r.at && x != k ==> x in m.at && r.at[x] == m.at[x]
  {
    var put := m.Put(k, v);
    PutValid(m, k, v);
    EvictShape(put, bound);
    assert put.order == m.order + [k];
    assert Last(put.order, bound) == Last(m.order, bound - 1) + [k];
    assert k in Last(put.order, bound);
  }

  lemma EvictedIs<K(!new), V>(m: JsMap<K, V>, r: JsMap<K, V>, bound: nat)
    requires m.Valid() && r.Valid() && r.order == Last(m.order, bound)
    requires forall k :: k in r.at ==> k in m.at && r.at[k] == m.at[k]
    ensures r == Evict(m, bound)
  {
    var e := Evict(m, bound);
    assert e.order == r.order;
    assert forall k :: k in e.at <==> k in r.at;
  }

  /** The `cut` oldest entries are gone. */
  ghost predicate PartlyEvicted<K(!new), V>(m: JsMap<K, V>, r: JsMap<K, V>, cut: nat) {
    && cut <= |m.order| && r.order == m.order[cut..]
    && (forall k :: k in r.at ==> k in m.at && r.at[k] == m.at[k])
  }

  lemma PartlyEvictedStep<K(!new), V>(m: JsMap<K, V>, r: JsMap<K, V>, cut: nat)
    requires r.Valid() && PartlyEvicted(m, r, cut) && r.Size() > 0
    ensures r.Delete(r.order[0]).Valid() && r.Delete(r.order[0]).Size() == r.Size() - 1
    ensures PartlyEvicted(m, r.Delete(r.order[0]), cut + 1)
  {
    DropOldest(r);
    assert m.order[cut..][1..] == m.order[cut + 1..];
  }

  // -------------------------------------------------------------------------- deletion

  /** Deletes the key if it still holds this value. */
  function DeleteIfCurrent<K(!new, ==)>(m: JsMap<K, nat>, key: K, ticket: nat): JsMap<K, nat> {
    if m.Has(key) && m.at[key] == ticket then m.Delete(key) else m
  }

  function Unselected<K>(s: seq<K>, selected: K -> bool): seq<K> {
    if s == [] then []
    else
      var n := |s| - 1;
      Unselected(s[..n], selected) + if selected(s[n]) then [] else [s[n]]
  }

  /** Deletes all selected keys. */
  function DeleteSelected<K(!new, ==), V>(m: JsMap<K, V>, selected: K -> bool): JsMap<K, V> {
    JsMap(Unselected(m.order, selected), map k | k in m.at && !selected(k) :: m.at[k])
  }

  lemma {:induction false} UnselectedMembers<K(!new)>(s: seq<K>, selected: K -> bool)
    ensures forall k :: k in Unselected(s, selected) <==> k in s && !selected(k)
    ensures |Unselected(s, selected)| <= |s|
    ensures Distinct(s) ==> Distinct(Unselected(s, selected))
  {
    if s != [] {
      var n := |s| - 1;
      UnselectedMembers(s[..n], selected);
      assert s == s[..n] + [s[n]];
    }
  }

  lemma DeleteSelectedShape<K(!new), V>(m: JsMap<K, V>, selected: K -> bool)
    requires m.Valid()
    ensures DeleteSelected(m, selected).Valid() && DeleteSelected(m, selected).Size() <= m.Size()
  {
    UnselectedMembers(m.order, selected);
  }

  /** The first `n` keys of `was` have been looked at; nothing else has been deleted. */
  ghost predicate PartlyDeleted<K(!new), V>(was: JsMap<K, V>, now: JsMap<K, V>, n: nat, selected: K -> bool) {
    && n <= was.Size()
    && now.order == Unselected(was.order[..n], selected) + was.order[n..]
    && (forall k :: k in now.at ==> k in was.at && now.at[k] == was.at[k])
  }

  lemma UnselectedStep<K>(s: seq<K>, n: nat, selected: K -> bool)
    requires n < |s|
    ensures Unselected(s[..n + 1], selected)
         == Unselected(s[..n], selected) + if selected(s[n]) then [] else [s[n]]
  {
    assert s[..n + 1][..n] == s[..n];
  }

  /** The key that the loop looks at next. */
  lemma NextKey<K(!new), V>(was: JsMap<K, V>, now: JsMap<K, V>, n: nat, selected: K -> bool)
    requires PartlyDeleted(was, now, n, selected) && n < was.Size()
    ensures |Unselected(was.order[..n], selected)| < now.Size()
    ensures now.order[|Unselected(was.order[..n], selected)|] == was.order[n]
  {
  }

  lemma KeyKept<K(!new), V>(was: JsMap<K, V>, now: JsMap<K, V>, n: nat, selected: K -> bool)
    requires PartlyDeleted(was, now, n, selected) && n < was.Size() && !selected(was.order[n])
    ensures PartlyDeleted(was, now, n + 1, selected)
    ensures |Unselected(was.order[..n + 1], selected)| == |Unselected(was.order[..n], selected)| + 1
  {
    UnselectedStep(was.order, n, selected);
    assert was.order[n..] == [was.order[n]] + was.order[n + 1..];
  }

  lemma OrderAfterDeletion<K(!new)>(was: seq<K>, now: seq<K>, n: nat, selected: K -> bool)
    requires Distinct(now) && n < |was| && selected(was[n]) && now == Unselected(was[..n], selected) + was[n..]
    ensures Without(now, was[n]) == Unselected(was[..n + 1], selected) + was[n + 1..]
    ensures Unselected(was[..n + 1], selected) == Unselected(was[..n], selected)
  {
    var done := Unselected(was[..n], selected);
    UnselectedStep(was, n, selected);
    assert done + [] == done;
    assert now[|done|] == was[n];
    WithoutAt(now, |done|);
    assert now[..|done|] == done;
    assert now[|done| + 1..] == was[n + 1..];
  }

  lemma KeyDeleted<K(!new), V>(was: JsMap<K, V>, now: JsMap<K, V>, n: nat, selected: K -> bool)
    requires now.Valid() && PartlyDeleted(was, now, n, selected) && n < was.Size() && selected(was.order[n])
    ensures PartlyDeleted(was, now.Delete(was.order[n]), n + 1, selected)
    ensures |Unselected(was.order[..n + 1], selected)| == |Unselected(was.order[..n], selected)|
  {
    OrderAfterDeletion(was.order, now.order, n, selected);
  }

  lemma WhollyDeleted<K(!new), V>(was: JsMap<K, V>, now: JsMap<K, V>, selected: K -> bool)
    requires was.Valid() && now.Valid() && PartlyDeleted(was, now, was.Size(), selected)
    ensures now == DeleteSelected(was, selected)
  {
    assert was.order[..was.Size()] == was.order;
    UnselectedMembers(was.order, selected);
  }

  // ------------------------------------------------------------------------- the loops

  /** Deletes the oldest key until the bound is met. */
  method EvictOldest<K(!new, ==), V>(m: JsMap<K, V>, bound: nat) returns (r: JsMap<K, V>)
    requires m.Valid()
    ensures r == Evict(m, bound)
  {
    r := m;
    ghost var cut := 0;
    while r.Size() > bound
      invariant r.Valid() && PartlyEvicted(m, r, cut)
      invariant cut == 0 || r.Size() >= bound
      decreases r.Size()
    {
      PartlyEvictedStep(m, r, cut);
      r := r.Delete(r.order[0]);
      cut := cut + 1;
    }
    EvictedIs(m, r, bound);
  }

  /** Iterates over the live key list while deleting from it. */
  method DeleteWhere<K(!new, ==), V>(m: JsMap<K, V>, selected: K -> bool) returns (r: JsMap<K, V>)
    requires m.Valid()
    ensures r == DeleteSelected(m, selected)
  {
    r := m;
    var i := 0;
    ghost var n := 0;
    while i < |r.order|
      invariant r.Valid() && PartlyDeleted(m, r, n, selected)
      invariant i == |Unselected(m.order[..n], selected)|
      decreases |r.order| - i
    {
      NextKey(m, r, n, selected);
      if selected(r.order[i]) {
        KeyDeleted(m, r, n, selected);
        DeleteValid(r, r.order[i]);
        r := r.Delete(r.order[i]);
      } else {
        KeyKept(m, r, n, selected);
        i := i + 1;
      }
      n := n + 1;
    }
    WhollyDeleted(m, r, selected);
  }
}
