/** backend/src/files/file-mutation.service.ts as it runs: at every `await` other uploads go on.
    `script` says, for each time this upload waits, what they do and how the operation waited for
    ends. It is arbitrary, so the contracts cover every interleaving and every failure. */
module FileMutationServices {
  import opened FileMutation
  import opened FileUploads
  import opened Outcomes

  /** What others do meanwhile, whether the operation succeeds, and whether a write that fails leaves
      a part of the file. */
  datatype Turn = Turn(others: seq<Event>, ok: bool, partly: bool)

  /** Nothing that is waited for fails. */
  ghost predicate Smooth(script: seq<Turn>) { forall i :: 0 <= i < |script| ==> script[i].ok }

  ghost predicate ClashesIn(lower: string -> string, records: seq<Record>, files: seq<File>) {
    exists r :: r in records && Clashes(lower, files, r)
  }

  /** Existing files are not to be replaced, and at some moment from `from` on there was one with the
      name of a file to be stored. */
  ghost predicate Obstructed(lower: string -> string, events: seq<Event>, from: nat, files: seq<File>, strategy: Strategy) {
    strategy == Reject && exists i :: from <= i <= |events| && ClashesIn(lower, Run(lower, events[..i]).records, files)
  }

  lemma ObstructedNow(lower: string -> string, events: seq<Event>, from: nat, files: seq<File>, strategy: Strategy)
    requires strategy == Reject && from <= |events| && ClashesIn(lower, Run(lower, events).records, files)
    ensures Obstructed(lower, events, from, files, strategy)
  {
    assert events[..|events|] == events;
  }

  lemma ObstructedBefore(lower: string -> string, events: seq<Event>, e: Event, from: nat, files: seq<File>, strategy: Strategy, staged: seq<Record>)
    requires from <= |events| && Stored(lower, Run(lower, events).records, files, strategy, staged) == None
    ensures Obstructed(lower, events + [e], from, files, strategy)
  {
    ObstructedNow(lower, events, from, files, strategy);
    ObstructedLater(lower, events, events + [e], from, files, strategy);
  }

  lemma ObstructedLater(lower: string -> string, before: seq<Event>, events: seq<Event>, from: nat, files: seq<File>, strategy: Strategy)
    requires Obstructed(lower, before, from, files, strategy) && before <= events
    ensures Obstructed(lower, events, from, files, strategy)
  {
    var i :| from <= i <= |before| && ClashesIn(lower, Run(lower, before[..i]).records, files);
    assert events[..i] == before[..i];
  }

  lemma OneMoreEvent(lower: string -> string, events: seq<Event>, e: Event)
    ensures Run(lower, events + [e]) == Step(lower, Run(lower, events), e)
  {
    assert (events + [e])[..|events|] == events;
  }

  /** The step of one upload leaves the others where they are. */
  lemma OthersStay(lower: string -> string, w: World, e: Event, u: nat)
    requires e.u != u
    ensures u in Step(lower, w, e).uploads <==> u in w.uploads
    ensures u in w.uploads ==> Step(lower, w, e).uploads[u] == w.uploads[u]
  {
  }

  /** None of the steps that upload `u` takes from the `from`th event on changes the table. */
  ghost predicate LeavesTable(lower: string -> string, events: seq<Event>, from: nat, u: nat) {
    forall i :: from <= i < |events| && events[i].u == u ==> Run(lower, events[..i + 1]).records == Run(lower, events[..i]).records
  }

  /** Upload `u` stores `rows` in its `i`th step, and changes the table in no other. */
  ghost predicate StoresAt(lower: string -> string, events: seq<Event>, from: nat, u: nat, rows: seq<Record>, i: nat) {
    && from <= i < |events| && Enabled(Run(lower, events[..i]), events[i]) && events[i] == Commit(u, true)
    && Run(lower, events[..i]).uploads[u].staged == rows
    && (forall r :: r in rows ==> r in Run(lower, events[..i + 1]).records)
    && LeavesTable(lower, events[..i], from, u) && LeavesTable(lower, events, i + 1, u)
  }

  lemma LeavesOneMore(lower: string -> string, events: seq<Event>, from: nat, u: nat, e: Event)
    requires LeavesTable(lower, events, from, u)
    requires e.u == u ==> Step(lower, Run(lower, events), e).records == Run(lower, events).records
    ensures LeavesTable(lower, events + [e], from, u)
  {
    var more := events + [e];
    OneMoreEvent(lower, events, e);
    forall i | from <= i < |more| && more[i].u == u ensures Run(lower, more[..i + 1]).records == Run(lower, more[..i]).records {
      if i < |events| {
        assert more[..i] == events[..i] && more[..i + 1] == events[..i + 1];
      } else {
        assert more[..i] == events && more[..i + 1] == more;
      }
    }
  }

  lemma PathsLeft(files: seq<Record>, i: nat)
    requires DistinctPaths(files) && i < |files|
    ensures files[i].path in PathSet(files[i..]) && PathSet(files[i..]) - {files[i].path} == PathSet(files[i + 1..])
  {
    var tail := files[i + 1..];
    assert files[i..] == [files[i]] + tail;
    forall r | r in tail ensures r.path != files[i].path {
      var j :| 0 <= j < |tail| && tail[j] == r;
      assert files[i + 1 + j] == r;
    }
  }

  /** What happens later does not change that an upload has stored its rows. */
  lemma StaysStored(lower: string -> string, before: seq<Event>, events: seq<Event>, from: nat, u: nat, rows: seq<Record>, i: nat)
    requires StoresAt(lower, before, from, u, rows, i) && i == |before| - 1 && before <= events && LeavesTable(lower, events, |before|, u)
    ensures StoresAt(lower, events, from, u, rows, i)
  {
    assert events[..i] == before[..i] && events[..i + 1] == before[..i + 1];
  }

  lemma CleanedUp(lower: string -> string, events: seq<Event>, u: nat)
    requires IsCleaning(Run(lower, events), u) && Run(lower, events).uploads[u].pending == {}
    ensures var w := Run(lower, events); w.uploads[u].own * w.blobs <= w.uploads[u].missed
  {
    forall path | path in Run(lower, events).uploads[u].own && path !in Run(lower, events).uploads[u].missed
      ensures path !in Run(lower, events).blobs
    {
      CleanedUpLeavesNothing(lower, events, u, path);
    }
  }

  lemma StagedStandsFor(lower: string -> string, w: World, u: nat)
    requires Inv(lower, w) && IsStaging(w, u) && |w.uploads[u].staged| == |w.uploads[u].files|
    ensures StandsFor(w.uploads[u].staged, w.uploads[u].files)
  {
    assert InOrder(lower, w, u);
    assert w.uploads[u].files[..|w.uploads[u].staged|] == w.uploads[u].files;
  }

  lemma BeginIs(lower: string -> string, w: World, u: nat, files: seq<File>, strategy: Strategy, kept: seq<File>)
    requires u !in w.uploads && files != [] && Incoming(lower, files, strategy) == Ok(kept)
    requires strategy == Reject ==> !ClashesIn(lower, w.records, kept)
    ensures Step(lower, w, Begin(u, files, strategy)) == WithUpload(w, u, Staging(strategy, files, kept, []))
  {
  }

  ghost predicate MayCommit(w: World, u: nat) { IsStaging(w, u) && |w.uploads[u].staged| == |w.uploads[u].files| }

  ghost function StoredBy(lower: string -> string, w: World, u: nat): Option<seq<Record>>
    requires IsStaging(w, u)
  {
    var x := w.uploads[u];
    Stored(lower, w.records, x.files, x.strategy, x.staged)
  }

  lemma CommitFails(lower: string -> string, w: World, u: nat, ok: bool)
    requires MayCommit(w, u) && (!ok || StoredBy(lower, w, u) == None)
    ensures Step(lower, w, Commit(u, ok)) == WithUpload(w, u, FileUploads.Failed(PathSet(w.uploads[u].staged)))
  {
  }

  lemma CommitSaves(lower: string -> string, w: World, u: nat, next: seq<Record>)
    requires MayCommit(w, u) && StoredBy(lower, w, u) == Some(next)
    ensures var x := w.uploads[u];
      var replaced := Superseded(lower, w.records, x.files, x.strategy);
      Step(lower, w, Commit(u, true)) == WithUpload(w.(records := next), u, Cleaning(true, replaced, replaced, {}))
  {
  }

  class FileMutationService {
    const lower: string -> string
    /** `randomUUID`: a path that is none of these. */
    const freshPath: set<string> -> string
    var records: seq<Record>
    var blobs: set<string>
    var used: set<string>
    var uploads: map<nat, Upload>
    var script: seq<Turn>
    ghost var trace: seq<Event>

    ghost function W(): World
      reads this
    {
      World(records, blobs, used, uploads)
    }

    ghost predicate Valid()
      reads this
    {
      (forall paths :: freshPath(paths) !in paths) && W() == Run(lower, trace)
    }

    constructor (lower: string -> string, freshPath: set<string> -> string, script: seq<Turn>)
      requires forall paths :: freshPath(paths) !in paths
      ensures Valid() && W() == START && trace == []
      ensures this.lower == lower && this.freshPath == freshPath && this.script == script
    {
      this.lower, this.freshPath, this.script := lower, freshPath, script;
      records, blobs, used, uploads, trace := [], {}, {}, map[], [];
    }

    /** One step of the system. */
    method Advance(e: Event)
      requires Valid()
      modifies this
      ensures Valid() && trace == old(trace) + [e] && script == old(script)
      ensures W() == Step(lower, old(W()), e)
    {
      var next := Step(lower, World(records, blobs, used, uploads), e);
      OneMoreEvent(lower, trace, e);
      records, blobs, used, uploads := next.records, next.blobs, next.used, next.uploads;
      trace := trace + [e];
    }

    ghost predicate Quiet(from: nat, u: nat)
      reads this
    {
      Valid() && from <= |trace| && LeavesTable(lower, trace, from, u)
    }

    method Await(u: nat, ghost from: nat) returns (ok: bool, partly: bool)
      requires Quiet(from, u)
      modifies this
      ensures Quiet(from, u) && old(trace) <= trace
      ensures u in uploads <==> u in old(uploads)
      ensures u in uploads ==> uploads[u] == old(uploads[u])
      ensures Smooth(old(script)) ==> ok && Smooth(script)
    {
      if script == [] { return true, false; }
      var turn := script[0];
      script := script[1..];
      for i := 0 to |turn.others|
        invariant Quiet(from, u) && old(trace) <= trace && script == old(script)[1..]
        invariant u in uploads <==> u in old(uploads)
        invariant u in uploads ==> uploads[u] == old(uploads[u])
      {
        var e := turn.others[i];
        if e.u != u {
          OthersStay(lower, W(), e, u);
          LeavesOneMore(lower, trace, from, u, e);
          Advance(e);
        }
      }
      return turn.ok, turn.partly;
    }

    /** `removePath` */
    method RemovePath(u: nat, path: string, ghost from: nat)
      requires Quiet(from, u) && IsCleaning(W(), u) && path in uploads[u].pending
      modifies this
      ensures Quiet(from, u) && old(trace) <= trace && IsCleaning(W(), u)
      ensures uploads[u].saved == old(uploads[u].saved) && uploads[u].pending == old(uploads[u].pending) - {path}
      ensures Smooth(old(script)) ==> Smooth(script)
    {
      var ok, _ := Await(u, from);
      var x := uploads[u];
      LeavesOneMore(lower, trace, from, u, Unlink(u, path, ok));
      OneMoreEvent(lower, trace, Unlink(u, path, ok));
      if ok { blobs := blobs - {path}; }
      uploads := uploads[u := x.(pending := x.pending - {path}, missed := if ok then x.missed else x.missed + {path})];
      trace := trace + [Unlink(u, path, ok)];
    }

    method RemovePhysicalFiles(u: nat, files: seq<Record>, ghost from: nat)
      requires Quiet(from, u) && IsCleaning(W(), u) && DistinctPaths(files) && uploads[u].pending == PathSet(files)
      modifies this
      ensures Quiet(from, u) && old(trace) <= trace && IsCleaning(W(), u)
      ensures uploads[u].saved == old(uploads[u].saved) && uploads[u].pending == {}
      ensures Smooth(old(script)) ==> Smooth(script)
    {
      assert files[0..] == files;
      for i := 0 to |files|
        invariant Quiet(from, u) && old(trace) <= trace && IsCleaning(W(), u)
        invariant uploads[u].saved == old(uploads[u].saved) && uploads[u].pending == PathSet(files[i..])
        invariant Smooth(old(script)) ==> Smooth(script)
      {
        PathsLeft(files, i);
        RemovePath(u, files[i].path, from);
      }
    }

    /** `stageUpload` */
    method StageUpload(u: nat, f: File, ghost from: nat) returns (r: Result<Record, Refusal>)
      requires Quiet(from, u) && IsStaging(W(), u) && |uploads[u].staged| < |uploads[u].files| && f == uploads[u].files[|uploads[u].staged|]
      modifies this
      ensures Quiet(from, u) && old(trace) <= trace && u in uploads
      ensures r.Ok? ==> uploads[u] == old(uploads[u]).(staged := old(uploads[u]).staged + [r.value])
      ensures r.Err? ==> IsCleaning(W(), u) && !uploads[u].saved && uploads[u].pending == PathSet(old(uploads[u]).staged)
      ensures Smooth(old(script)) ==> r.Ok? && Smooth(script)
    {
      var ok, partly := Await(u, from);
      var x := uploads[u];
      var path := freshPath(used);
      EveryRunIsInOrder(lower, trace);
      FreshPath(lower, W(), path, u);
      LeavesOneMore(lower, trace, from, u, Stage(u, path, ok, partly));
      OneMoreEvent(lower, trace, Stage(u, path, ok, partly));
      trace := trace + [Stage(u, path, ok, partly)];
      used := used + {path};
      if ok {
        r := Ok(Record(f.name, path, f.content));
        blobs := blobs + {path};
        uploads := uploads[u := x.(staged := x.staged + [r.value])];
      } else {
        if partly { blobs := blobs + {path}; }
        uploads := uploads[u := FileUploads.Failed({path} + PathSet(x.staged))];
        RemovePath(u, path, from);
        r := Err(Refusal.Failed);
      }
    }

    /** The first loop: all files are staged, or what was staged is removed again. */
    method StageAll(u: nat, ghost from: nat) returns (r: Result<seq<Record>, Refusal>)
      requires Quiet(from, u) && IsStaging(W(), u) && uploads[u].staged == []
      modifies this
      ensures Quiet(from, u) && old(trace) <= trace && u in uploads
      ensures r.Ok? ==> uploads[u] == old(uploads[u]).(staged := r.value) && |r.value| == |uploads[u].files|
      ensures r.Err? ==> IsCleaning(W(), u) && !uploads[u].saved && uploads[u].pending == {}
      ensures Smooth(old(script)) ==> r.Ok? && Smooth(script)
    {
      var files := uploads[u].files;
      var staged: seq<Record> := [];
      for i := 0 to |files|
        invariant Quiet(from, u) && old(trace) <= trace
        invariant |staged| == i && u in uploads && uploads[u] == old(uploads[u]).(staged := staged)
        invariant Smooth(old(script)) ==> Smooth(script)
      {
        EveryRunIsInOrder(lower, trace);
        assert InOrder(lower, W(), u);
        var one := StageUpload(u, files[i], from);
        if one.Err? {
          RemovePhysicalFiles(u, staged, from);
          return Err(one.error);
        }
        staged := staged + [one.value];
      }
      return Ok(staged);
    }

    /** The transaction is undone. */
    method Abandon(u: nat, ok: bool, ghost from: nat)
      requires Quiet(from, u) && MayCommit(W(), u) && (!ok || StoredBy(lower, W(), u) == None)
      modifies this
      ensures Quiet(from, u) && trace == old(trace) + [Commit(u, ok)] && script == old(script)
      ensures u in uploads && uploads[u] == FileUploads.Failed(PathSet(old(uploads[u].staged)))
    {
      CommitFails(lower, W(), u, ok);
      OneMoreEvent(lower, trace, Commit(u, ok));
      LeavesOneMore(lower, trace, from, u, Commit(u, ok));
      trace := trace + [Commit(u, ok)];
      uploads := uploads[u := FileUploads.Failed(PathSet(uploads[u].staged))];
    }

    /** The transaction is committed. */
    method Save(u: nat, next: seq<Record>, matches: seq<Record>, ghost from: nat)
      requires Quiet(from, u) && MayCommit(W(), u) && StoredBy(lower, W(), u) == Some(next)
      requires PathSet(matches) == Superseded(lower, records, uploads[u].files, uploads[u].strategy)
      requires forall r :: r in uploads[u].staged ==> r in next
      modifies this
      ensures Valid() && trace == old(trace) + [Commit(u, true)] && script == old(script)
      ensures StoresAt(lower, trace, from, u, old(uploads[u].staged), |trace| - 1)
      ensures u in uploads && uploads[u] == Cleaning(true, PathSet(matches), PathSet(matches), {})
    {
      CommitSaves(lower, W(), u, next);
      OneMoreEvent(lower, trace, Commit(u, true));
      assert (trace + [Commit(u, true)])[..|trace|] == trace;
      assert (trace + [Commit(u, true)])[..|trace| + 1] == trace + [Commit(u, true)];
      records := next;
      uploads := uploads[u := Cleaning(true, PathSet(matches), PathSet(matches), {})];
      trace := trace + [Commit(u, true)];
    }

    /** The transaction; it holds the lock of the ACP row, so nothing happens between its statements. */
    method Transact(u: nat, ghost from: nat) returns (r: Result<seq<Record>, Refusal>, replaced: seq<Record>)
      requires Quiet(from, u) && IsStaging(W(), u) && |uploads[u].staged| == |uploads[u].files|
      modifies this
      ensures Valid() && old(trace) <= trace && u in uploads
      ensures r.Ok? ==> r.value == old(uploads[u].staged) && StoresAt(lower, trace, from, u, r.value, |trace| - 1)
      ensures r.Ok? ==> DistinctPaths(replaced) && uploads[u] == Cleaning(true, PathSet(replaced), PathSet(replaced), {})
      ensures r.Err? ==> Quiet(from, u) && uploads[u] == FileUploads.Failed(PathSet(old(uploads[u]).staged))
      ensures r.Err? && Smooth(old(script)) ==> Obstructed(lower, trace, from, old(uploads[u].files), old(uploads[u].strategy))
    {
      var ok, _ := Await(u, from);
      var x := uploads[u];
      EveryRunIsInOrder(lower, trace);
      assert InOrder(lower, W(), u);
      var next, matches := Store(lower, records, x.files, x.strategy, x.staged);
      if next == None || !ok {
        if next == None { ObstructedBefore(lower, trace, Commit(u, ok), from, x.files, x.strategy, x.staged); }
        Abandon(u, ok, from);
        return Err(Conflict), [];
      }
      Save(u, next.value, matches, from);
      return Ok(x.staged), matches;
    }

    /** The upload is refused for what it asks for: it has no files, a file without a name, or two of one
        name where none may be replaced. */
    ghost predicate IsRefusal(error: Refusal, files: seq<File>, strategy: Strategy) {
      if files == [] then error == NoFiles
      else if !AllNamed(lower, files) then error == NameMissing
      else strategy == Reject && !DistinctNames(lower, files) && error == Conflict
    }

    method FindConflict(u: nat, files: seq<File>, ghost from: nat) returns (conflict: bool)
      requires Quiet(from, u) && u !in uploads
      modifies this
      ensures Quiet(from, u) && old(trace) <= trace && u !in uploads
      ensures conflict <==> ClashesIn(lower, records, files)
      ensures Smooth(old(script)) ==> Smooth(script)
    {
      var _, _ := Await(u, from);
      var existingByName := GroupByNormalizedName(lower, records);
      conflict := HasConflicts(lower, files, existingByName, records);
    }

    /** What comes before anything is written: the files to be stored are determined, and existing
        names are looked at. */
    method Admit(u: nat, files: seq<File>, strategy: Strategy, ghost from: nat) returns (r: Result<seq<File>, Refusal>)
      requires Quiet(from, u) && u !in uploads
      modifies this
      ensures Quiet(from, u) && old(trace) <= trace
      ensures r.Err? ==> u !in uploads
      ensures r.Ok? ==> r == Incoming(lower, files, strategy) && u in uploads && uploads[u] == Staging(strategy, files, r.value, [])
      ensures r.Err? ==> IsRefusal(r.error, files, strategy) || (r.error == Conflict && Obstructed(lower, trace, from, files, strategy))
      ensures files == [] || Incoming(lower, files, strategy).Err? ==> r.Err? && IsRefusal(r.error, files, strategy)
      ensures Smooth(old(script)) ==> Smooth(script)
    {
      if files == [] { return Err(NoFiles); }
      r := ResolveIncomingFiles(lower, files, strategy);
      IncomingExactly(lower, files, strategy);
      if r.Err? { return; }
      if strategy == Reject {
        var conflict := FindConflict(u, r.value, from);
        if conflict {
          ObstructedNow(lower, trace, from, files, strategy);
          return Err(Conflict);
        }
      }
      BeginIs(lower, W(), u, files, strategy, r.value);
      LeavesOneMore(lower, trace, from, u, Begin(u, files, strategy));
      OneMoreEvent(lower, trace, Begin(u, files, strategy));
      uploads := uploads[u := Staging(strategy, files, r.value, [])];
      trace := trace + [Begin(u, files, strategy)];
    }

    /** From the staged files to the end. */
    method Persist(u: nat, ghost from: nat) returns (r: Result<seq<Record>, Refusal>, ghost step: nat)
      requires Quiet(from, u) && IsStaging(W(), u) && |uploads[u].staged| == |uploads[u].files|
      modifies this
      ensures Valid() && old(trace) <= trace
      ensures r.Err? ==> LeavesTable(lower, trace, from, u)
      ensures r.Err? && Smooth(old(script)) ==> Obstructed(lower, trace, from, old(uploads[u].files), old(uploads[u].strategy))
      ensures r.Ok? ==> r.value == old(uploads[u].staged) && StoresAt(lower, trace, from, u, r.value, step)
      ensures IsCleaning(W(), u) && uploads[u].saved == r.Ok? && uploads[u].pending == {}
    {
      var staged := uploads[u].staged;
      EveryRunIsInOrder(lower, trace);
      assert InOrder(lower, W(), u);
      var replaced;
      r, replaced := Transact(u, from);
      if r.Err? {
        step := 0;
        ghost var before, files, strategy := trace, old(uploads[u].files), old(uploads[u].strategy);
        RemovePhysicalFiles(u, staged, from);
        if Obstructed(lower, before, from, files, strategy) { ObstructedLater(lower, before, trace, from, files, strategy); }
      } else {
        step := |trace| - 1;
        ghost var before := trace;
        RemovePhysicalFiles(u, replaced, |trace|);
        StaysStored(lower, before, trace, from, u, r.value, step);
      }
    }

    /** An upload fails only if it is refused, if something that is waited for fails, or if a file is in its
        way at some moment. One that fails leaves the table alone. One that succeeds stores its rows in one step and
        changes the table in no other; the rows stand for the files that the strategy keeps. In both
        cases nothing remains of the blobs it had to remove, but for those whose removal failed. */
    method UploadMultiple(u: nat, files: seq<File>, strategy: Strategy) returns (r: Result<seq<Record>, Refusal>, ghost step: nat)
      requires Valid() && u !in uploads
      modifies this
      ensures Valid() && old(trace) <= trace
      ensures r.Err? && Smooth(old(script)) ==> IsRefusal(r.error, files, strategy) || Obstructed(lower, trace, |old(trace)|, files, strategy)
      ensures files == [] || Incoming(lower, files, strategy).Err? ==> r.Err? && IsRefusal(r.error, files, strategy)
      ensures r.Err? ==> LeavesTable(lower, trace, |old(trace)|, u)
      ensures r.Ok? ==> StoresAt(lower, trace, |old(trace)|, u, r.value, step)
      ensures r.Ok? ==> Incoming(lower, files, strategy).Ok? && StandsFor(r.value, Incoming(lower, files, strategy).value)
      ensures r.Ok? ==> u in uploads
      ensures u in uploads ==> IsCleaning(W(), u) && uploads[u].saved == r.Ok? && uploads[u].own * blobs <= uploads[u].missed
    {
      ghost var from := |trace|;
      var admitted := Admit(u, files, strategy, from);
      if admitted.Err? { return Err(admitted.error), 0; }
      var staged := StageAll(u, from);
      if staged.Err? {
        CleanedUp(lower, trace, u);
        return Err(staged.error), 0;
      }
      EveryRunIsInOrder(lower, trace);
      StagedStandsFor(lower, W(), u);
      r, step := Persist(u, from);
      CleanedUp(lower, trace, u);
    }
  }
}
