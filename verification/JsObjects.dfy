/** Plain objects used as dictionaries: their own properties in the order in which they were
    first set, and the values that JSON can hold. */
module JsObjects {
  import opened Outcomes

  ghost predicate Unique<V>(e: seq<(string, V)>) {
    forall i, j :: 0 <= i < j < |e| ==> e[i].0 != e[j].0
  }

  function Lookup<V>(e: seq<(string, V)>, k: string): Option<V> {
    if e == [] then None else if e[0].0 == k then Some(e[0].1) else Lookup(e[1..], k)
  }

  /** `e[k] = v`: a property that is replaced keeps its place. */
  function Set<V>(e: seq<(string, V)>, k: string, v: V): seq<(string, V)> {
    if e == [] then [(k, v)]
    else if e[0].0 == k then [(k, v)] + e[1..]
    else [e[0]] + Set(e[1..], k, v)
  }

  /** `delete e[k]` */
  function Remove<V>(e: seq<(string, V)>, k: string): seq<(string, V)> {
    if e == [] then [] else (if e[0].0 == k then [] else [e[0]]) + Remove(e[1..], k)
  }

  /** `{ ...a, ...b }` */
  function Merge<V>(a: seq<(string, V)>, b: seq<(string, V)>): seq<(string, V)> {
    if b == [] then a else Set(Merge(a, b[..|b| - 1]), b[|b| - 1].0, b[|b| - 1].1)
  }

  /** A new object filled from the entries of another one, in their order. */
  function Collect<V, W>(e: seq<(string, V)>, f: (string, V) -> Option<(string, W)>): seq<(string, W)> {
    if e == [] then []
    else
      var rest := Collect(e[..|e| - 1], f);
      match f(e[|e| - 1].0, e[|e| - 1].1)
      case None => rest
      case Some(p) => Set(rest, p.0, p.1)
  }

  // -------------------------------------------------------------------------- lookups

  lemma {:induction false} LookupSet<V>(e: seq<(string, V)>, k: string, v: V, x: string)
    ensures Lookup(Set(e, k, v), x) == if x == k then Some(v) else Lookup(e, x)
  {
    if e != [] && e[0].0 != k {
      LookupSet(e[1..], k, v, x);
      assert Set(e, k, v)[1..] == Set(e[1..], k, v);
    }
  }

  lemma {:induction false} LookupRemove<V>(e: seq<(string, V)>, k: string, x: string)
    ensures Lookup(Remove(e, k), x) == if x == k then None else Lookup(e, x)
  {
    if e != [] {
      LookupRemove(e[1..], k, x);
      if e[0].0 == k {
        assert Remove(e, k) == Remove(e[1..], k);
      } else {
        assert Remove(e, k)[1..] == Remove(e[1..], k);
      }
    }
  }

  lemma {:induction false} LookupFinds<V>(e: seq<(string, V)>, k: string)
    ensures Lookup(e, k) == None <==> forall i :: 0 <= i < |e| ==> e[i].0 != k
    ensures Lookup(e, k).Some? ==> exists i :: 0 <= i < |e| && e[i] == (k, Lookup(e, k).value)
  {
    if e != [] && e[0].0 != k {
      LookupFinds(e[1..], k);
      assert forall i :: 0 < i < |e| ==> e[i] == e[1..][i - 1];
      if Lookup(e[1..], k).Some? {
        var i :| 0 <= i < |e[1..]| && e[1..][i] == (k, Lookup(e[1..], k).value);
        assert e[i + 1] == (k, Lookup(e, k).value);
      }
    }
  }

  lemma {:induction false} LookupAt<V>(e: seq<(string, V)>, i: nat)
    requires Unique(e) && i < |e|
    ensures Lookup(e, e[i].0) == Some(e[i].1)
  {
    if i > 0 {
      assert e[0].0 != e[i].0;
      assert Unique(e[1..]);
      LookupAt(e[1..], i - 1);
    }
  }

  lemma {:induction false} LookupMerge<V>(a: seq<(string, V)>, b: seq<(string, V)>, k: string)
    ensures Lookup(b, k) == None ==> Lookup(Merge(a, b), k) == Lookup(a, k)
    ensures Unique(b) && Lookup(b, k).Some? ==> Lookup(Merge(a, b), k) == Lookup(b, k)
  {
    if b != [] {
      var c, last := b[..|b| - 1], b[|b| - 1];
      LookupMerge(a, c, k);
      LookupSet(Merge(a, c), last.0, last.1, k);
      LookupFinds(b, k);
      LookupFinds(c, k);
      if Unique(b) {
        LookupAt(b, |b| - 1);
        if Lookup(b, k).Some? && k != last.0 {
          var i :| 0 <= i < |b| && b[i] == (k, Lookup(b, k).value);
          assert c[i] == b[i];
          LookupAt(c, i);
        }
      }
    }
  }

  // -------------------------------------------------------------------- setting properties

  lemma {:induction false} SetShape<V>(e: seq<(string, V)>, k: string, v: V)
    ensures Set(e, k, v) != [] && |e| <= |Set(e, k, v)| <= |e| + 1
    ensures forall i :: 0 <= i < |Set(e, k, v)| ==> Set(e, k, v)[i] == (k, v) || (i < |e| && Set(e, k, v)[i] == e[i])
    ensures forall i :: 0 <= i < |e| ==> Set(e, k, v)[i].0 == e[i].0
    ensures Unique(e) ==> Unique(Set(e, k, v))
  {
    if e != [] && e[0].0 != k {
      SetShape(e[1..], k, v);
      var rest := Set(e[1..], k, v);
      assert forall i :: 0 < i < |e| ==> e[i] == e[1..][i - 1];
      if Unique(e) {
        assert Unique(e[1..]);
        forall j | 0 < j < |Set(e, k, v)| ensures e[0].0 != Set(e, k, v)[j].0 {
          assert Set(e, k, v)[j] == rest[j - 1];
        }
        forall i, j | 0 < i < j < |Set(e, k, v)| ensures Set(e, k, v)[i].0 != Set(e, k, v)[j].0 {
          assert Set(e, k, v)[i] == rest[i - 1] && Set(e, k, v)[j] == rest[j - 1];
        }
      }
    }
  }

  lemma {:induction false} SetNew<V>(e: seq<(string, V)>, k: string, v: V)
    requires forall i :: 0 <= i < |e| ==> e[i].0 != k
    ensures Set(e, k, v) == e + [(k, v)]
  {
    if e != [] {
      SetNew(e[1..], k, v);
      assert e == [e[0]] + e[1..];
    }
  }

  lemma {:induction false} RemoveShape<V>(e: seq<(string, V)>, k: string)
    ensures |Remove(e, k)| <= |e| && forall i :: 0 <= i < |Remove(e, k)| ==> Remove(e, k)[i] in e && Remove(e, k)[i].0 != k
    ensures Unique(e) ==> Unique(Remove(e, k))
  {
    if e != [] {
      RemoveShape(e[1..], k);
      var rest := Remove(e[1..], k);
      assert forall p :: p in e[1..] ==> p in e;
      if Unique(e) {
        assert Unique(e[1..]);
        forall i | 0 <= i < |rest| ensures rest[i].0 != e[0].0 {
          var j :| 0 <= j < |e[1..]| && e[1..][j] == rest[i];
          assert e[j + 1].0 != e[0].0;
        }
        if e[0].0 != k {
          assert forall i :: 0 < i < |Remove(e, k)| ==> Remove(e, k)[i] == rest[i - 1];
        } else {
          assert Remove(e, k) == rest;
        }
      }
    }
  }

  // -------------------------------------------------------------------------- collecting

  ghost predicate All<W(!new)>(e: seq<(string, W)>, p: (string, W) -> bool) {
    forall i :: 0 <= i < |e| ==> p(e[i].0, e[i].1)
  }

  ghost predicate Yields<V(!new), W(!new)>(f: (string, V) -> Option<(string, W)>, p: (string, W) -> bool) {
    forall k, v :: f(k, v).Some? ==> p(f(k, v).value.0, f(k, v).value.1)
  }

  lemma {:induction false} CollectShape<V(!new), W(!new)>(e: seq<(string, V)>, f: (string, V) -> Option<(string, W)>, p: (string, W) -> bool)
    requires Yields(f, p)
    ensures |Collect(e, f)| <= |e| && Unique(Collect(e, f)) && All(Collect(e, f), p)
  {
    if e != [] {
      var rest, q := e[..|e| - 1], f(e[|e| - 1].0, e[|e| - 1].1);
      CollectShape(rest, f, p);
      if q.Some? { SetShape(Collect(rest, f), q.value.0, q.value.1); }
    }
  }

  ghost predicate Names<V>(e: seq<(string, V)>, k: string) {
    exists i :: 0 <= i < |e| && e[i].0 == k
  }

  lemma {:induction false} SetNames<V>(e: seq<(string, V)>, k: string, v: V, x: string)
    ensures Names(Set(e, k, v), x) <==> Names(e, x) || x == k
  {
    SetShape(e, k, v);
    var r := Set(e, k, v);
    if Names(e, x) {
      var i :| 0 <= i < |e| && e[i].0 == x;
      assert r[i].0 == x;
    }
    if x == k && !Names(e, x) {
      SetNew(e, k, v);
      assert r[|e|].0 == k;
    }
  }

  ghost predicate Maps<V, W>(e: seq<(string, V)>, f: (string, V) -> Option<(string, W)>, x: string) {
    exists i :: 0 <= i < |e| && f(e[i].0, e[i].1).Some? && f(e[i].0, e[i].1).value.0 == x
  }

  lemma MapsOneMore<V, W>(e: seq<(string, V)>, f: (string, V) -> Option<(string, W)>, x: string)
    requires e != []
    ensures var q := f(e[|e| - 1].0, e[|e| - 1].1);
      Maps(e, f, x) <==> Maps(e[..|e| - 1], f, x) || (q.Some? && q.value.0 == x)
  {
    var n := |e| - 1;
    if Maps(e[..n], f, x) {
      var i :| 0 <= i < n && f(e[..n][i].0, e[..n][i].1).Some? && f(e[..n][i].0, e[..n][i].1).value.0 == x;
      assert f(e[i].0, e[i].1).Some?;
    }
    if Maps(e, f, x) {
      var i :| 0 <= i < |e| && f(e[i].0, e[i].1).Some? && f(e[i].0, e[i].1).value.0 == x;
      if i < n { assert f(e[..n][i].0, e[..n][i].1).Some?; }
    }
  }

  /** The names of a collected object are those that some entry is mapped to. */
  lemma {:induction false} CollectNames<V, W>(e: seq<(string, V)>, f: (string, V) -> Option<(string, W)>, x: string)
    ensures Names(Collect(e, f), x) <==> Maps(e, f, x)
  {
    if e != [] {
      var rest, q := e[..|e| - 1], f(e[|e| - 1].0, e[|e| - 1].1);
      CollectNames(rest, f, x);
      MapsOneMore(e, f, x);
      if q.Some? { SetNames(Collect(rest, f), q.value.0, q.value.1, x); }
    }
  }

  /** Entries that are mapped to those of an object one by one give that object. */
  lemma {:induction false} CollectKeeps<V, W>(e: seq<(string, V)>, r: seq<(string, W)>, f: (string, V) -> Option<(string, W)>)
    requires |e| == |r| && Unique(r) && forall i :: 0 <= i < |e| ==> f(e[i].0, e[i].1) == Some(r[i])
    ensures Collect(e, f) == r
  {
    if e != [] {
      var n := |e| - 1;
      CollectKeeps(e[..n], r[..n], f);
      SetNew(r[..n], r[n].0, r[n].1);
      assert f(e[n].0, e[n].1) == Some(r[n]);
      assert r[..n] + [(r[n].0, r[n].1)] == r;
    }
  }
}
