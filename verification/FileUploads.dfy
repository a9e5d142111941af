/** backend/src/files/file-mutation.service.ts and file-storage.service.ts: any number of uploads under
    way, each cut at its `await`s, with failure possible at every step. */
module FileUploads {
  import opened FileMutation
  import opened JsMaps
  import opened Outcomes

  /** Where an upload stands. `requested` are its files, `files` those it stores. `Cleaning` has the
      blobs of `own` to remove: what it staged if it failed, what it replaced if it was saved;
      `missed` are those whose removal failed. */
  datatype Upload =
    | Staging(strategy: Strategy, requested: seq<File>, files: seq<File>, staged: seq<Record>)
    | Cleaning(saved: bool, own: set<string>, pending: set<string>, missed: set<string>)

  /** `used` are the paths that blobs have been written to. */
  datatype World = World(records: seq<Record>, blobs: set<string>, used: set<string>, uploads: map<nat, Upload>)

  const START := World([], {}, {}, map[])

  /** A write that fails may leave a part of the file; then the upload removes it first. */
  datatype Event =
    | Begin(u: nat, files: seq<File>, strategy: Strategy)
    | Stage(u: nat, path: string, written: bool, partly: bool)
    | Commit(u: nat, committed: bool)
    | Unlink(u: nat, target: string, removed: bool)

  function WithUpload(w: World, u: nat, x: Upload): World { w.(uploads := w.uploads[u := x]) }

  predicate IsStaging(w: World, u: nat) { u in w.uploads && w.uploads[u].Staging? }

  predicate IsCleaning(w: World, u: nat) { u in w.uploads && w.uploads[u].Cleaning? }

  function Begun(lower: string -> string, w: World, u: nat, files: seq<File>, strategy: Strategy): World {
    if u in w.uploads || files == [] then w
    else
      match Incoming(lower, files, strategy)
      case Err(_) => w
      case Ok(kept) =>
        if Stored(lower, w.records, kept, strategy, []) == None then w else WithUpload(w, u, Staging(strategy, files, kept, []))
  }

  /** The blobs of a failed upload are due to be removed. */
  function Failed(paths: set<string>): Upload { Cleaning(false, paths, paths, {}) }

  /** The next file is written under a path that was never used. */
  function Staged(w: World, u: nat, path: string, written: bool, partly: bool): World
    requires IsStaging(w, u) && |w.uploads[u].staged| < |w.uploads[u].files|
  {
    var x := w.uploads[u];
    var f := x.files[|x.staged|];
    if written then
      WithUpload(w.(blobs := w.blobs + {path}, used := w.used + {path}), u, x.(staged := x.staged + [Record(f.name, path, f.content)]))
    else
      WithUpload(w.(blobs := if partly then w.blobs + {path} else w.blobs, used := w.used + {path}), u, Failed({path} + PathSet(x.staged)))
  }

  function Committed(lower: string -> string, w: World, u: nat, committed: bool): World
    requires IsStaging(w, u)
  {
    var x := w.uploads[u];
    var next := Stored(lower, w.records, x.files, x.strategy, x.staged);
    if next == None || !committed then WithUpload(w, u, Failed(PathSet(x.staged)))
    else
      var replaced := Superseded(lower, w.records, x.files, x.strategy);
      WithUpload(w.(records := next.value), u, Cleaning(true, replaced, replaced, {}))
  }

  /** `removePath` ignores failures. */
  function Unlinked(w: World, u: nat, target: string, removed: bool): World
    requires IsCleaning(w, u)
  {
    var x := w.uploads[u];
    WithUpload(w.(blobs := if removed then w.blobs - {target} else w.blobs), u,
               x.(pending := x.pending - {target}, missed := if removed then x.missed else x.missed + {target}))
  }

  predicate Enabled(w: World, e: Event) {
    match e
    case Begin(_, _, _) => true
    case Stage(u, path, _, _) => IsStaging(w, u) && |w.uploads[u].staged| < |w.uploads[u].files| && path !in w.used
    case Commit(u, _) => IsStaging(w, u) && |w.uploads[u].staged| == |w.uploads[u].files|
    case Unlink(u, target, _) => IsCleaning(w, u) && target in w.uploads[u].pending
  }

  function Step(lower: string -> string, w: World, e: Event): World {
    if !Enabled(w, e) then w
    else
      match e
      case Begin(u, files, strategy) => Begun(lower, w, u, files, strategy)
      case Stage(u, path, written, partly) => Staged(w, u, path, written, partly)
      case Commit(u, committed) => Committed(lower, w, u, committed)
      case Unlink(u, target, removed) => Unlinked(w, u, target, removed)
  }

  function Run(lower: string -> string, events: seq<Event>): World {
    if events == [] then START else Step(lower, Run(lower, events[..|events| - 1]), events[|events| - 1])
  }

  // --------------------------------------------------------------------------- the invariant

  /** The blobs an upload may still remove or turn into rows. */
  function Owned(x: Upload): set<string> {
    match x
    case Staging(_, _, _, staged) => PathSet(staged)
    case Cleaning(_, _, pending, _) => pending
  }

  /** Every row has its blob, and no two rows share one. */
  ghost predicate RowsHaveBlobs(w: World) {
    DistinctPaths(w.records) && PathSet(w.records) <= w.blobs && w.blobs <= w.used
  }

  /** What an upload owns belongs to no row. */
  ghost predicate Owns(w: World, u: nat) {
    u in w.uploads ==> Owned(w.uploads[u]) <= w.used && Owned(w.uploads[u]) !! PathSet(w.records)
  }

  ghost predicate Separate(w: World, u: nat, v: nat) {
    u in w.uploads && v in w.uploads && u != v ==> Owned(w.uploads[u]) !! Owned(w.uploads[v])
  }

  /** What has been staged is there, and stands for the first of the files to be stored. */
  ghost predicate Stages(lower: string -> string, w: World, u: nat) {
    IsStaging(w, u) ==>
      var x := w.uploads[u];
      && PathSet(x.staged) <= w.blobs && DistinctPaths(x.staged)
      && Incoming(lower, x.requested, x.strategy) == Ok(x.files)
      && |x.staged| <= |x.files| && StandsFor(x.staged, x.files[..|x.staged|])
  }

  /** Of the blobs that were due to be removed only those are left whose removal is still due or has
      failed. */
  ghost predicate CleansUp(w: World, u: nat) {
    IsCleaning(w, u) ==>
      var x := w.uploads[u];
      x.own <= w.used && x.own * w.blobs <= x.pending + x.missed
  }

  ghost predicate InOrder(lower: string -> string, w: World, u: nat) { Owns(w, u) && Stages(lower, w, u) && CleansUp(w, u) }

  ghost predicate Inv(lower: string -> string, w: World) {
    && RowsHaveBlobs(w)
    && (forall u :: InOrder(lower, w, u))
    && (forall u, v :: Separate(w, u, v))
  }

  // -------------------------------------------------------------------- each step keeps it

  lemma BeginKeepsInv(lower: string -> string, w: World, u: nat, files: seq<File>, strategy: Strategy)
    requires Inv(lower, w)
    ensures Inv(lower, Begun(lower, w, u, files, strategy))
  {
    var w' := Begun(lower, w, u, files, strategy);
    if w' != w {
      assert PathSet([]) == {};
      forall v ensures InOrder(lower, w', v) { assert InOrder(lower, w, v); }
      forall v, z ensures Separate(w', v, z) { assert Separate(w, v, z); }
    }
  }

  lemma OneMorePath(staged: seq<Record>, r: Record)
    ensures PathSet(staged + [r]) == PathSet(staged) + {r.path}
  {
  }

  lemma OneMoreStaged(staged: seq<Record>, files: seq<File>, path: string)
    requires |staged| < |files| && StandsFor(staged, files[..|staged|]) && DistinctPaths(staged) && path !in PathSet(staged)
    ensures var r := Record(files[|staged|].name, path, files[|staged|].content);
      StandsFor(staged + [r], files[..|staged| + 1]) && DistinctPaths(staged + [r])
  {
    forall i | 0 <= i < |staged| ensures staged[i].path != path {
      assert staged[i] in staged;
    }
  }

  /** A fresh path belongs to nobody. */
  lemma FreshPath(lower: string -> string, w: World, path: string, v: nat)
    requires Inv(lower, w) && path !in w.used
    ensures path !in PathSet(w.records) && (v in w.uploads ==> path !in Owned(w.uploads[v]))
  {
    assert InOrder(lower, w, v);
  }

  lemma WrittenKeepsInv(lower: string -> string, w: World, u: nat, path: string)
    requires Inv(lower, w) && Enabled(w, Stage(u, path, true, false))
    ensures Inv(lower, Staged(w, u, path, true, false))
  {
    var x, w' := w.uploads[u], Staged(w, u, path, true, false);
    assert InOrder(lower, w, u);
    FreshPath(lower, w, path, u);
    OneMoreStaged(x.staged, x.files, path);
    OneMorePath(x.staged, Record(x.files[|x.staged|].name, path, x.files[|x.staged|].content));
    assert Owned(w'.uploads[u]) == Owned(x) + {path};
    forall v ensures InOrder(lower, w', v) { assert InOrder(lower, w, v); }
    forall v, z ensures Separate(w', v, z) {
      assert Separate(w, v, z);
      FreshPath(lower, w, path, v);
      FreshPath(lower, w, path, z);
    }
  }

  /** Going over to cleaning up: what was owned, and perhaps a fresh path, is now due. */
  lemma FailureKeepsInv(lower: string -> string, w: World, u: nat, extra: set<string>, blobs: set<string>)
    requires Inv(lower, w) && IsStaging(w, u) && extra !! w.used && w.blobs <= blobs <= w.blobs + extra
    ensures Inv(lower, WithUpload(w.(blobs := blobs, used := w.used + extra), u, Failed(extra + PathSet(w.uploads[u].staged))))
  {
    var x := w.uploads[u];
    var w' := WithUpload(w.(blobs := blobs, used := w.used + extra), u, Failed(extra + PathSet(x.staged)));
    assert InOrder(lower, w, u);
    assert Owned(w'.uploads[u]) == extra + Owned(x);
    forall v ensures InOrder(lower, w', v) { assert InOrder(lower, w, v); }
    forall v, z ensures Separate(w', v, z) {
      assert Separate(w, v, z) && InOrder(lower, w, v) && InOrder(lower, w, z);
    }
  }

  /** What the transaction makes of the rows. */
  lemma StoredRows(lower: string -> string, records: seq<Record>, x: Upload)
    requires x.Staging? && DistinctPaths(records) && DistinctPaths(x.staged) && PathSet(x.staged) !! PathSet(records)
    requires Stored(lower, records, x.files, x.strategy, x.staged).Some?
    ensures var next, replaced := Stored(lower, records, x.files, x.strategy, x.staged).value, Superseded(lower, records, x.files, x.strategy);
      DistinctPaths(next) && PathSet(next) == PathSet(records) - replaced + PathSet(x.staged) && replaced <= PathSet(records)
  {
    var rest := if x.strategy == Overwrite then Kept(lower, records, x.files) else records;
    if x.strategy == Overwrite {
      KeptDistinct(lower, records, x.files);
      ReplacedPaths(lower, records, x.files);
      forall r ensures r in rest <==> r in records && !Clashes(lower, x.files, r) { KeptOrReplaced(lower, records, x.files, r); }
    }
    PathsOfRest(records, rest, Superseded(lower, records, x.files, x.strategy));
    JoinedPaths(rest, x.staged);
  }

  lemma PathsOfRest(records: seq<Record>, rest: seq<Record>, replaced: set<string>)
    requires forall r :: r in rest <==> r in records && r.path !in replaced
    ensures PathSet(rest) == PathSet(records) - replaced
  {
    forall path ensures path in PathSet(rest) <==> path in PathSet(records) && path !in replaced {
      if path in PathSet(records) && path !in replaced {
        var r :| r in records && r.path == path;
        assert r in rest;
      }
    }
  }

  lemma JoinedPaths(rest: seq<Record>, staged: seq<Record>)
    requires DistinctPaths(rest) && DistinctPaths(staged) && PathSet(rest) !! PathSet(staged)
    ensures DistinctPaths(rest + staged) && PathSet(rest + staged) == PathSet(rest) + PathSet(staged)
  {
    var all := rest + staged;
    forall i, j | 0 <= i < j < |all| ensures all[i].path != all[j].path {
      if i < |rest| <= j {
        assert rest[i] in rest && staged[j - |rest|] in staged;
        assert rest[i].path in PathSet(rest) && staged[j - |rest|].path in PathSet(staged);
      }
    }
  }

  lemma CommittedKeepsInv(lower: string -> string, w: World, u: nat)
    requires Inv(lower, w) && IsStaging(w, u)
    requires var x := w.uploads[u]; Stored(lower, w.records, x.files, x.strategy, x.staged).Some?
    ensures Inv(lower, Committed(lower, w, u, true))
  {
    var x, w' := w.uploads[u], Committed(lower, w, u, true);
    assert InOrder(lower, w, u);
    StoredRows(lower, w.records, x);
    forall v ensures InOrder(lower, w', v) { assert InOrder(lower, w, v) && Separate(w, u, v); }
    forall v, z ensures Separate(w', v, z) {
      assert Separate(w, v, z) && InOrder(lower, w, v) && InOrder(lower, w, z);
    }
  }

  lemma UnlinkKeepsInv(lower: string -> string, w: World, u: nat, target: string, removed: bool)
    requires Inv(lower, w) && Enabled(w, Unlink(u, target, removed))
    ensures Inv(lower, Unlinked(w, u, target, removed))
  {
    var x, w' := w.uploads[u], Unlinked(w, u, target, removed);
    assert InOrder(lower, w, u);
    forall path | path in x.own * w'.blobs ensures path in w'.uploads[u].pending + w'.uploads[u].missed {
      assert path in x.own * w.blobs;
    }
    forall v ensures InOrder(lower, w', v) { assert InOrder(lower, w, v) && Separate(w, u, v); }
    forall v, z ensures Separate(w', v, z) { assert Separate(w, v, z); }
  }

  lemma StageKeepsInv(lower: string -> string, w: World, u: nat, path: string, written: bool, partly: bool)
    requires Inv(lower, w) && Enabled(w, Stage(u, path, written, partly))
    ensures Inv(lower, Staged(w, u, path, written, partly))
  {
    if written {
      WrittenKeepsInv(lower, w, u, path);
    } else {
      FailureKeepsInv(lower, w, u, {path}, if partly then w.blobs + {path} else w.blobs);
    }
  }

  lemma CommitKeepsInv(lower: string -> string, w: World, u: nat, committed: bool)
    requires Inv(lower, w) && Enabled(w, Commit(u, committed))
    ensures Inv(lower, Committed(lower, w, u, committed))
  {
    var x := w.uploads[u];
    if committed && Stored(lower, w.records, x.files, x.strategy, x.staged).Some? {
      CommittedKeepsInv(lower, w, u);
    } else {
      FailureKeepsInv(lower, w, u, {}, w.blobs);
      assert w.(blobs := w.blobs, used := w.used + {}) == w && {} + PathSet(x.staged) == PathSet(x.staged);
    }
  }

  lemma StepKeepsInv(lower: string -> string, w: World, e: Event)
    requires Inv(lower, w)
    ensures Inv(lower, Step(lower, w, e))
  {
    if Enabled(w, e) {
      match e
      case Begin(u, files, strategy) => BeginKeepsInv(lower, w, u, files, strategy);
      case Stage(u, path, written, partly) => StageKeepsInv(lower, w, u, path, written, partly);
      case Commit(u, committed) => CommitKeepsInv(lower, w, u, committed);
      case Unlink(u, target, removed) => UnlinkKeepsInv(lower, w, u, target, removed);
    }
  }

  lemma {:induction false} EveryRunIsInOrder(lower: string -> string, events: seq<Event>)
    ensures Inv(lower, Run(lower, events))
  {
    if events != [] {
      EveryRunIsInOrder(lower, events[..|events| - 1]);
      StepKeepsInv(lower, Run(lower, events[..|events| - 1]), events[|events| - 1]);
    }
  }

  // ------------------------------------------------------------------------- what follows

  /** Whatever fails and however uploads are interleaved, every row has its blob, and no two rows
      share one. */
  lemma RowsAlwaysHaveBlobs(lower: string -> string, events: seq<Event>)
    ensures var w := Run(lower, events); DistinctPaths(w.records) && forall r :: r in w.records ==> r.path in w.blobs
  {
    EveryRunIsInOrder(lower, events);
  }

  /** When an upload has cleaned up, only blobs whose removal failed are left of what it had to
      remove. */
  lemma CleanedUpLeavesNothing(lower: string -> string, events: seq<Event>, u: nat, path: string)
    requires var w := Run(lower, events);
      IsCleaning(w, u) && w.uploads[u].pending == {} && path in w.uploads[u].own && path !in w.uploads[u].missed
    ensures path !in Run(lower, events).blobs
  {
    EveryRunIsInOrder(lower, events);
    assert InOrder(lower, Run(lower, events), u);
  }

  /** The paths that upload `u` has written to, if only in part. */
  function Wrote(lower: string -> string, events: seq<Event>, u: nat): set<string> {
    if events == [] then {}
    else
      var e := events[|events| - 1];
      Wrote(lower, events[..|events| - 1], u)
      + if e.Stage? && e.u == u && Enabled(Run(lower, events[..|events| - 1]), e) then {e.path} else {}
  }

  /** What an upload wrote it has staged, or has to remove if it failed. */
  ghost predicate Accounted(w: World, u: nat, wrote: set<string>) {
    && (u !in w.uploads ==> wrote == {})
    && (IsStaging(w, u) ==> wrote == PathSet(w.uploads[u].staged))
    && (IsCleaning(w, u) && !w.uploads[u].saved ==> wrote == w.uploads[u].own)
  }

  lemma StepAccounts(lower: string -> string, w: World, e: Event, u: nat, wrote: set<string>)
    requires Accounted(w, u, wrote)
    ensures Accounted(Step(lower, w, e), u, wrote + if e.Stage? && e.u == u && Enabled(w, e) then {e.path} else {})
  {
    if e.u == u && Enabled(w, e) {
      match e
      case Begin(_, _, _) => assert PathSet([]) == {};
      case Stage(_, path, _, _) =>
        var x := w.uploads[u];
        OneMorePath(x.staged, Record(x.files[|x.staged|].name, path, x.files[|x.staged|].content));
      case Commit(_, _) =>
      case Unlink(_, _, _) =>
    }
  }

  lemma {:induction false} WhatWasWritten(lower: string -> string, events: seq<Event>, u: nat)
    ensures Accounted(Run(lower, events), u, Wrote(lower, events, u))
  {
    if events != [] {
      var n := |events| - 1;
      WhatWasWritten(lower, events[..n], u);
      StepAccounts(lower, Run(lower, events[..n]), events[n], u, Wrote(lower, events[..n], u));
    }
  }

  /** When an upload that failed has cleaned up, nothing is left of all it wrote, the partly written
      file included, but blobs whose removal failed. */
  lemma FailedUploadsLeaveNothing(lower: string -> string, events: seq<Event>, u: nat)
    requires var w := Run(lower, events); IsCleaning(w, u) && !w.uploads[u].saved && w.uploads[u].pending == {}
    ensures var w := Run(lower, events); Wrote(lower, events, u) * w.blobs <= w.uploads[u].missed
  {
    WhatWasWritten(lower, events, u);
    EveryRunIsInOrder(lower, events);
    assert InOrder(lower, Run(lower, events), u);
  }

  /** In every run, after an overwrite has been committed there is exactly one row of each name that
      its files have: that of the last of them; and the rows of other names are what they were. */
  lemma OverwriteIsExact(lower: string -> string, events: seq<Event>, u: nat, r: Record)
    requires Enabled(Run(lower, events), Commit(u, true)) && Run(lower, events).uploads[u].strategy == Overwrite
    ensures var w := Run(lower, events);
      var requested, next, key := w.uploads[u].requested, Run(lower, events + [Commit(u, true)]).records, Key(lower, r.name);
      if NamedBy(lower, requested, key) then
        && (exists q :: q in next && Key(lower, q.name) == key && Some(File(q.name, q.content)) == LastNamed(lower, requested, key))
        && (r in next ==> Some(File(r.name, r.content)) == LastNamed(lower, requested, key))
        && (forall q :: q in next && Key(lower, q.name) == key && r in next ==> q == r)
      else r in next <==> r in w.records
  {
    var w := Run(lower, events);
    var x := w.uploads[u];
    EveryRunIsInOrder(lower, events);
    assert InOrder(lower, w, u);
    assert x.files[..|x.staged|] == x.files;
    assert (events + [Commit(u, true)])[..|events|] == events;
    if NamedBy(lower, x.requested, Key(lower, r.name)) {
      var row := OverwriteLeavesOne(lower, w.records, x.requested, x.staged, Key(lower, r.name));
    } else {
      OverwriteSparesOthers(lower, w.records, x.requested, x.staged, r);
    }
  }

  // ------------------------------------------------------------------- names without repetition

  ghost predicate DistinctKeys(lower: string -> string, records: seq<Record>) {
    forall i, j :: 0 <= i < j < |records| ==> Key(lower, records[i].name) != Key(lower, records[j].name)
  }

  /** No upload keeps both files. */
  ghost predicate NeverBoth(w: World) {
    forall u :: IsStaging(w, u) ==> w.uploads[u].strategy != KeepBoth
  }

  ghost predicate NamesDiffer(lower: string -> string, w: World) {
    DistinctKeys(lower, w.records) && (forall r :: r in w.records ==> Key(lower, r.name) != "") && NeverBoth(w)
  }

  /** The files of an upload have names, and different ones. */
  lemma ResolvedNames(lower: string -> string, files: seq<File>, strategy: Strategy)
    requires Incoming(lower, files, strategy).Ok? && strategy != KeepBoth
    ensures AllNamed(lower, Incoming(lower, files, strategy).value) && DistinctNames(lower, Incoming(lower, files, strategy).value)
  {
    var kept := Incoming(lower, files, strategy).value;
    if strategy == Overwrite {
      forall i | 0 <= i < |kept| ensures Key(lower, kept[i].name) != "" {
        OverwriteKeepsTheLast(lower, files, Key(lower, kept[i].name));
        assert NamedBy(lower, kept, Key(lower, kept[i].name));
      }
      OverwriteKeepsTheLast(lower, files, "");
    }
  }

  lemma {:induction false} KeptKeys(lower: string -> string, records: seq<Record>, files: seq<File>)
    requires DistinctKeys(lower, records)
    ensures DistinctKeys(lower, Kept(lower, records, files))
  {
    if records != [] {
      var n := |records| - 1;
      KeptKeys(lower, records[..n], files);
      forall r | r in Kept(lower, records[..n], files) ensures Key(lower, r.name) != Key(lower, records[n].name) {
        KeptOrReplaced(lower, records[..n], files, r);
        var i :| 0 <= i < n && records[..n][i] == r;
        assert Key(lower, records[i].name) != Key(lower, records[n].name);
      }
    }
  }

  lemma JoinedKeys(lower: string -> string, rest: seq<Record>, files: seq<File>, staged: seq<Record>)
    requires DistinctKeys(lower, rest) && StandsFor(staged, files) && DistinctNames(lower, files)
    requires forall r :: r in rest ==> !NamedBy(lower, files, Key(lower, r.name))
    ensures DistinctKeys(lower, rest + staged)
  {
    var all := rest + staged;
    forall i, j | 0 <= i < j < |all| ensures Key(lower, all[i].name) != Key(lower, all[j].name) {
      if i < |rest| <= j {
        assert rest[i] in rest && Key(lower, files[j - |rest|].name) == Key(lower, staged[j - |rest|].name);
      } else if |rest| <= i {
        assert Key(lower, files[i - |rest|].name) != Key(lower, files[j - |rest|].name);
      }
    }
  }

  lemma StoredNames(lower: string -> string, w: World, u: nat)
    requires Inv(lower, w) && NamesDiffer(lower, w) && Enabled(w, Commit(u, true))
    requires var x := w.uploads[u]; Stored(lower, w.records, x.files, x.strategy, x.staged).Some?
    ensures var x := w.uploads[u]; var next := Stored(lower, w.records, x.files, x.strategy, x.staged).value;
      DistinctKeys(lower, next) && forall r :: r in next ==> Key(lower, r.name) != ""
  {
    var x := w.uploads[u];
    assert InOrder(lower, w, u);
    assert x.files[..|x.staged|] == x.files;
    ResolvedNames(lower, x.requested, x.strategy);
    var rest := if x.strategy == Overwrite then Kept(lower, w.records, x.files) else w.records;
    if x.strategy == Overwrite { KeptKeys(lower, w.records, x.files); }
    forall r | r in rest ensures r in w.records && !NamedBy(lower, x.files, Key(lower, r.name)) {
      KeptOrReplaced(lower, w.records, x.files, r);
      assert r in w.records;
    }
    JoinedKeys(lower, rest, x.files, x.staged);
    forall r | r in x.staged ensures Key(lower, r.name) != "" {
      var i :| 0 <= i < |x.staged| && x.staged[i] == r;
      assert Key(lower, x.files[i].name) == Key(lower, r.name);
    }
  }

  lemma StepKeepsNames(lower: string -> string, w: World, e: Event)
    requires Inv(lower, w) && NamesDiffer(lower, w) && !(e.Begin? && e.strategy == KeepBoth)
    ensures NamesDiffer(lower, Step(lower, w, e))
  {
    if e.Commit? && Enabled(w, e) {
      var x := w.uploads[e.u];
      if e.committed && Stored(lower, w.records, x.files, x.strategy, x.staged).Some? { StoredNames(lower, w, e.u); }
    }
    var w' := Step(lower, w, e);
    forall u | IsStaging(w', u) ensures w'.uploads[u].strategy != KeepBoth {
      assert u != e.u ==> IsStaging(w, u);
    }
  }

  /** As long as nobody asks to keep both files, no two rows ever have the same name, however many
      uploads of one name are under way at once. */
  lemma {:induction false} NamesStayUnique(lower: string -> string, events: seq<Event>)
    requires forall e :: e in events ==> !(e.Begin? && e.strategy == KeepBoth)
    ensures DistinctKeys(lower, Run(lower, events).records)
    ensures NamesDiffer(lower, Run(lower, events))
  {
    if events != [] {
      var n := |events| - 1;
      forall e | e in events[..n] ensures e in events { }
      NamesStayUnique(lower, events[..n]);
      EveryRunIsInOrder(lower, events[..n]);
      StepKeepsNames(lower, Run(lower, events[..n]), events[n]);
    }
  }
}
