/** backend/src/review/register-booklets.ts: linking uploaded booklet definitions to the instruments
    of an assessment, without touching what has been configured by hand. */
module RegisterBooklets {
  import opened Outcomes
  import opened Text

  /** A booklet of an instrument; each field may be absent. */
  datatype Entry = Entry(id: Option<string>, name: Option<string>, definitionId: Option<string>)

  datatype Instrument = Instrument(id: Option<string>, name: Option<string>, booklets: seq<Entry>)

  type Part = seq<Instrument>

  datatype Upload = Upload(id: string, title: string, definitionId: string)

  datatype Warning = Doubled(id: string, definitionId: string) | Conflicting(id: string, definitionId: string)

  predicate Filled(s: Option<string>) { s.Some? && s.value != "" }

  // --------------------------------------------------------------------------- entries

  function OfPart(part: Part): seq<Entry> {
    if part == [] then [] else OfPart(part[..|part| - 1]) + part[|part| - 1].booklets
  }

  function Entries(parts: seq<Part>): seq<Entry> {
    if parts == [] then [] else Entries(parts[..|parts| - 1]) + OfPart(parts[|parts| - 1])
  }

  function MapEntries(es: seq<Entry>, f: Entry -> Entry): seq<Entry> { seq(|es|, i requires 0 <= i < |es| => f(es[i])) }

  function MapPart(part: Part, f: Entry -> Entry): Part {
    seq(|part|, i requires 0 <= i < |part| => part[i].(booklets := MapEntries(part[i].booklets, f)))
  }

  function MapParts(parts: seq<Part>, f: Entry -> Entry): seq<Part> {
    seq(|parts|, i requires 0 <= i < |parts| => MapPart(parts[i], f))
  }

  function Pushed(parts: seq<Part>, x: Instrument): seq<Part>
    requires parts != []
  {
    parts[0 := parts[0] + [x]]
  }

  function Count(es: seq<Entry>, q: Entry -> bool): nat {
    if es == [] then 0 else Count(es[..|es| - 1], q) + if q(es[|es| - 1]) then 1 else 0
  }

  lemma {:induction false} PartMapped(part: Part, f: Entry -> Entry)
    ensures OfPart(MapPart(part, f)) == MapEntries(OfPart(part), f)
  {
    if part != [] {
      var n := |part| - 1;
      PartMapped(part[..n], f);
      assert MapPart(part, f)[..n] == MapPart(part[..n], f);
      assert MapEntries(OfPart(part[..n]) + part[n].booklets, f) == MapEntries(OfPart(part[..n]), f) + MapEntries(part[n].booklets, f);
    }
  }

  lemma {:induction false} EntriesMapped(parts: seq<Part>, f: Entry -> Entry)
    ensures Entries(MapParts(parts, f)) == MapEntries(Entries(parts), f)
  {
    if parts != [] {
      var n := |parts| - 1;
      EntriesMapped(parts[..n], f);
      PartMapped(parts[n], f);
      assert MapParts(parts, f)[..n] == MapParts(parts[..n], f);
      assert MapEntries(Entries(parts[..n]) + OfPart(parts[n]), f) == MapEntries(Entries(parts[..n]), f) + MapEntries(OfPart(parts[n]), f);
    }
  }

  lemma PartPushed(part: Part, x: Instrument)
    ensures OfPart(part + [x]) == OfPart(part) + x.booklets
  {
    assert (part + [x])[..|part|] == part;
  }

  /** A pushed booklet stands somewhere among the entries, and all others stay in their order. */
  lemma {:induction false} EntriesPushed(parts: seq<Part>, x: Instrument, e: Entry) returns (before: seq<Entry>, after: seq<Entry>)
    requires parts != [] && x.booklets == [e]
    ensures Entries(parts) == before + after && Entries(Pushed(parts, x)) == before + [e] + after
  {
    var n := |parts| - 1;
    if n == 0 {
      PartPushed(parts[0], x);
      assert parts[..0] == [] && Pushed(parts, x)[..0] == [];
      before, after := OfPart(parts[0]), [];
      assert Entries(parts) == [] + OfPart(parts[0]);
      assert Entries(Pushed(parts, x)) == [] + (OfPart(parts[0]) + [e]);
    } else {
      var a, b := EntriesPushed(parts[..n], x, e);
      assert Pushed(parts, x)[..n] == Pushed(parts[..n], x);
      before, after := a, b + OfPart(parts[n]);
      assert Entries(parts) == (a + b) + OfPart(parts[n]);
      assert Entries(Pushed(parts, x)) == (a + [e] + b) + OfPart(parts[n]);
    }
  }

  lemma {:induction false} CountConcat(a: seq<Entry>, b: seq<Entry>, q: Entry -> bool)
    ensures Count(a + b, q) == Count(a, q) + Count(b, q)
  {
    if b == [] {
      assert a + b == a;
    } else {
      CountConcat(a, b[..|b| - 1], q);
      assert (a + b)[..|a + b| - 1] == a + b[..|b| - 1];
    }
  }

  lemma {:induction false} CountMapped(es: seq<Entry>, f: Entry -> Entry, q: Entry -> bool)
    requires forall e :: e in es ==> q(f(e)) == q(e)
    ensures Count(MapEntries(es, f), q) == Count(es, q)
  {
    if es != [] {
      var n := |es| - 1;
      assert forall e :: e in es[..n] ==> e in es;
      CountMapped(es[..n], f, q);
      assert MapEntries(es, f)[..n] == MapEntries(es[..n], f);
      assert es[n] in es;
    }
  }

  // ------------------------------------------------------------------------ one upload

  function HasId(id: string): Entry -> bool { (e: Entry) => e.id == Some(id) }

  predicate IdTaken(es: seq<Entry>, u: Upload) {
    exists i :: 0 <= i < |es| && es[i].id == Some(u.id) && es[i].definitionId != Some(u.definitionId)
  }

  predicate FileKnown(es: seq<Entry>, u: Upload) {
    exists i :: 0 <= i < |es| && es[i].definitionId == Some(u.definitionId)
  }

  predicate IdLinked(es: seq<Entry>, u: Upload) {
    exists i :: 0 <= i < |es| && es[i].id == Some(u.id) && Filled(es[i].definitionId)
  }

  /** The file is linked to another booklet. */
  predicate FileTaken(es: seq<Entry>, u: Upload) {
    exists i :: 0 <= i < |es| && es[i].definitionId == Some(u.definitionId) && Filled(es[i].id) && es[i].id != Some(u.id)
  }

  /** The one entry of this id has no file yet. */
  predicate CanReconnect(es: seq<Entry>, u: Upload) {
    Count(es, HasId(u.id)) == 1 && !IdLinked(es, u) && !FileKnown(es, u)
  }

  predicate Conflicted(es: seq<Entry>, u: Upload) {
    (IdTaken(es, u) && !CanReconnect(es, u)) || FileTaken(es, u)
  }

  function Named(e: Entry, title: string): Entry { if Filled(e.name) then e else e.(name := Some(title)) }

  function Reconnect(u: Upload): Entry -> Entry {
    (e: Entry) => if e.id == Some(u.id) then Named(e.(definitionId := Some(u.definitionId)), u.title) else e
  }

  function Identify(u: Upload): Entry -> Entry {
    (e: Entry) => if e.definitionId == Some(u.definitionId) then Named(e.(id := Some(u.id)), u.title) else e
  }

  function InstrumentIds(part: Part): set<string> { set i | 0 <= i < |part| && part[i].id.Some? :: part[i].id.value }

  function Candidate(u: Upload, suffix: nat): string {
    if suffix < 2 then "booklet-" + u.id else "booklet-" + u.id + "-" + Decimal(suffix)
  }

  function NewEntry(u: Upload): Entry { Entry(Some(u.id), Some(u.title), Some(u.definitionId)) }

  predicate IsDoubled(uploads: seq<Upload>, u: Upload) {
    exists i, j :: 0 <= i < j < |uploads| && uploads[i].id == u.id && uploads[j].id == u.id
  }

  /** What becomes of the entries, `instrumentId` being the id of a new instrument. */
  function Processed(parts: seq<Part>, uploads: seq<Upload>, u: Upload, instrumentId: string): (seq<Part>, set<Warning>)
    requires parts != []
  {
    var es := Entries(parts);
    if IsDoubled(uploads, u) then (parts, {Doubled(u.id, u.definitionId)})
    else if Conflicted(es, u) then (parts, {Conflicting(u.id, u.definitionId)})
    else if CanReconnect(es, u) then (MapParts(parts, Reconnect(u)), {})
    else if FileKnown(es, u) then (MapParts(parts, Identify(u)), {})
    else (Pushed(parts, Instrument(Some(instrumentId), Some(u.title), [NewEntry(u)])), {})
  }

  // -------------------------------------------------------------- the id of a new instrument

  /** The first candidate that is not taken; there are more candidates than taken ids. */
  function FirstFree(u: Upload, taken: set<string>, suffix: nat): nat
    decreases |taken|
  {
    if Candidate(u, suffix) in taken then FirstFree(u, taken - {Candidate(u, suffix)}, suffix + 1) else suffix
  }

  lemma CandidatesDiffer(u: Upload, j: nat, k: nat)
    requires 1 <= j < k
    ensures Candidate(u, j) != Candidate(u, k)
  {
    DecimalShape(k);
    if j >= 2 && Candidate(u, j) == Candidate(u, k) {
      var n := |"booklet-" + u.id + "-"|;
      assert Candidate(u, j)[n..] == Decimal(j) && Candidate(u, k)[n..] == Decimal(k);
      DecimalInjective(j, k);
    }
  }

  /** Candidates already tried may be left out of the taken ones. */
  ghost predicate Tried(u: Upload, taken: set<string>, rest: set<string>, suffix: nat) {
    rest <= taken && forall x :: x in taken && x !in rest ==> exists j :: 1 <= j < suffix && x == Candidate(u, j)
  }

  lemma FreeForAll(u: Upload, taken: set<string>, rest: set<string>, suffix: nat)
    requires Tried(u, taken, rest, suffix) && suffix >= 1
    ensures Candidate(u, suffix) in taken <==> Candidate(u, suffix) in rest
  {
    if Candidate(u, suffix) in taken && Candidate(u, suffix) !in rest {
      var j :| 1 <= j < suffix && Candidate(u, suffix) == Candidate(u, j);
      CandidatesDiffer(u, j, suffix);
    }
  }

  /** The suffix loop ends after at most one turn for each taken id. */
  method FreshInstrumentId(u: Upload, taken: set<string>) returns (instrumentId: string)
    ensures instrumentId !in taken
    ensures instrumentId == Candidate(u, FirstFree(u, taken, 1)) && FirstFree(u, taken, 1) <= 1 + |taken|
  {
    var suffix := 1;
    instrumentId := Candidate(u, 1);
    ghost var rest := taken;
    while instrumentId in taken
      invariant suffix >= 1 && instrumentId == Candidate(u, suffix) && Tried(u, taken, rest, suffix)
      invariant suffix + |rest| == 1 + |taken|
      invariant FirstFree(u, taken, 1) == FirstFree(u, rest, suffix)
      decreases |rest|
    {
      FreeForAll(u, taken, rest, suffix);
      rest := rest - {instrumentId};
      suffix := suffix + 1;
      instrumentId := Candidate(u, suffix);
    }
    FreeForAll(u, taken, rest, suffix);
  }

  // ---------------------------------------------------------------------------- all uploads

  /** How the id of a new instrument is chosen among the taken ones. */
  type Pick = (Upload, set<string>) -> string

  function FirstCandidate(): Pick { (u: Upload, taken: set<string>) => Candidate(u, FirstFree(u, taken, 1)) }

  /** The turn of one upload. */
  type Turn = (seq<Part>, Upload) -> (seq<Part>, set<Warning>)

  function TurnOf(all: seq<Upload>, pick: Pick): Turn {
    (parts: seq<Part>, u: Upload) => if parts == [] then (parts, {}) else Processed(parts, all, u, pick(u, InstrumentIds(parts[0])))
  }

  /** The first `n` uploads, one after the other. */
  function Register(parts: seq<Part>, all: seq<Upload>, n: nat, turn: Turn): (seq<Part>, set<Warning>)
    requires n <= |all|
  {
    if n == 0 then (parts, {})
    else
      var (before, warnings) := Register(parts, all, n - 1, turn);
      (turn(before, all[n - 1]).0, warnings + turn(before, all[n - 1]).1)
  }

  lemma TurnIs(all: seq<Upload>, pick: Pick, parts: seq<Part>, u: Upload)
    requires parts != []
    ensures TurnOf(all, pick)(parts, u) == Processed(parts, all, u, pick(u, InstrumentIds(parts[0])))
  {
  }

  lemma FirstCandidateIs(u: Upload, taken: set<string>)
    ensures FirstCandidate()(u, taken) == Candidate(u, FirstFree(u, taken, 1))
  {
  }

  /** The body of the loop. */
  method RegisterOne(parts: seq<Part>, uploads: seq<Upload>, upload: Upload) returns (registered: seq<Part>, warned: set<Warning>)
    requires parts != []
    ensures (registered, warned) == Processed(parts, uploads, upload, FirstCandidate()(upload, InstrumentIds(parts[0])))
    ensures registered != []
  {
    registered, warned := parts, {};
    var current := Entries(parts);
    if IsDoubled(uploads, upload) {
      warned := {Doubled(upload.id, upload.definitionId)};
      return;
    }
    if Conflicted(current, upload) {
      warned := {Conflicting(upload.id, upload.definitionId)};
      return;
    }
    if CanReconnect(current, upload) {
      registered := MapParts(parts, Reconnect(upload));
      return;
    }
    if FileKnown(current, upload) {
      registered := MapParts(parts, Identify(upload));
      return;
    }
    var instrumentId := FreshInstrumentId(upload, InstrumentIds(parts[0]));
    FirstCandidateIs(upload, InstrumentIds(parts[0]));
    registered := Pushed(parts, Instrument(Some(instrumentId), Some(upload.title), [NewEntry(upload)]));
  }

  method RegisterBooklets(parts: seq<Part>, uploads: seq<Upload>, warnings: set<Warning>) returns (registered: seq<Part>, warned: set<Warning>)
    requires parts != []
    ensures var r := Register(parts, uploads, |uploads|, TurnOf(uploads, FirstCandidate())); registered == r.0 && warned == warnings + r.1
  {
    registered, warned := parts, warnings;
    ghost var turn := TurnOf(uploads, FirstCandidate());
    for i := 0 to |uploads|
      invariant registered != [] && registered == Register(parts, uploads, i, turn).0
      invariant warned == warnings + Register(parts, uploads, i, turn).1
    {
      TurnIs(uploads, FirstCandidate(), registered, uploads[i]);
      var more;
      registered, more := RegisterOne(registered, uploads, uploads[i]);
      warned := warned + more;
    }
  }

  // -------------------------------------------------------------- how the entries change

  /** The three ways in which one upload may change the entries. */
  datatype Change = Same | Reconnected | Identified | Added

  function ChangeOf(es: seq<Entry>, uploads: seq<Upload>, u: Upload): Change {
    if IsDoubled(uploads, u) || Conflicted(es, u) then Same
    else if CanReconnect(es, u) then Reconnected
    else if FileKnown(es, u) then Identified
    else Added
  }

  ghost predicate Inserted(es: seq<Entry>, next: seq<Entry>, e: Entry) {
    exists k :: 0 <= k <= |es| && next == es[..k] + [e] + es[k..]
  }

  ghost predicate Changed(es: seq<Entry>, next: seq<Entry>, u: Upload, c: Change) {
    match c
    case Same => next == es
    case Reconnected => next == MapEntries(es, Reconnect(u))
    case Identified => next == MapEntries(es, Identify(u))
    case Added => Inserted(es, next, NewEntry(u))
  }

  lemma ProcessedEntries(parts: seq<Part>, uploads: seq<Upload>, u: Upload, instrumentId: string)
    requires parts != []
    ensures Processed(parts, uploads, u, instrumentId).0 != []
    ensures Changed(Entries(parts), Entries(Processed(parts, uploads, u, instrumentId).0), u, ChangeOf(Entries(parts), uploads, u))
  {
    match ChangeOf(Entries(parts), uploads, u)
    case Same =>
    case Reconnected => EntriesMapped(parts, Reconnect(u));
    case Identified => EntriesMapped(parts, Identify(u));
    case Added =>
      var x := Instrument(Some(instrumentId), Some(u.title), [NewEntry(u)]);
      var before, after := EntriesPushed(parts, x, NewEntry(u));
      var es := Entries(parts);
      assert es[..|before|] == before && es[|before|..] == after;
  }

  // ------------------------------------------------------------- which uploads are registered

  /** No entry knows the id or the file. */
  ghost predicate IsNew(es: seq<Entry>, u: Upload) {
    forall e :: e in es ==> e.id != Some(u.id) && e.definitionId != Some(u.definitionId)
  }

  /** One entry has the id, without a file, and no entry has the file. */
  ghost predicate Awaited(es: seq<Entry>, u: Upload, i: int) {
    && 0 <= i < |es| && es[i].id == Some(u.id) && !Filled(es[i].definitionId)
    && (forall j :: 0 <= j < |es| && j != i ==> es[j].id != Some(u.id))
    && forall e :: e in es ==> e.definitionId != Some(u.definitionId)
  }

  /** Some entry has the file; each that has the file has the id or none, and each that has the id has the file. */
  ghost predicate Matching(es: seq<Entry>, u: Upload) {
    && (exists e :: e in es && e.definitionId == Some(u.definitionId))
    && forall e :: e in es ==>
         && (e.definitionId == Some(u.definitionId) && Filled(e.id) ==> e.id == Some(u.id))
         && (e.id == Some(u.id) ==> e.definitionId == Some(u.definitionId))
  }

  /** Entry `i` is the only one with the id. */
  ghost predicate IsOnly(es: seq<Entry>, id: string, i: int) {
    0 <= i < |es| && es[i].id == Some(id) && forall j :: 0 <= j < |es| && j != i ==> es[j].id != Some(id)
  }

  lemma {:induction false} CountNone(es: seq<Entry>, id: string)
    requires forall j :: 0 <= j < |es| ==> es[j].id != Some(id)
    ensures Count(es, HasId(id)) == 0
  {
    if es != [] { CountNone(es[..|es| - 1], id); }
  }

  lemma {:induction false} OnlyIsCounted(es: seq<Entry>, id: string, i: int)
    requires IsOnly(es, id, i)
    ensures Count(es, HasId(id)) == 1
  {
    var n := |es| - 1;
    if i == n { CountNone(es[..n], id); } else { OnlyIsCounted(es[..n], id, i); }
  }

  lemma {:induction false} CountedOnce(es: seq<Entry>, id: string) returns (i: nat)
    requires Count(es, HasId(id)) == 1
    ensures IsOnly(es, id, i)
  {
    var n := |es| - 1;
    if es[n].id == Some(id) {
      i := n;
      NoneCounted(es[..n], id);
      assert forall j :: 0 <= j < n ==> es[..n][j] == es[j];
    } else {
      i := CountedOnce(es[..n], id);
      assert forall j :: 0 <= j < n ==> es[..n][j] == es[j];
    }
  }

  lemma NoneCounted(es: seq<Entry>, id: string)
    requires Count(es, HasId(id)) == 0
    ensures forall j :: 0 <= j < |es| ==> es[j].id != Some(id)
  {
    CountPositive(es, id);
  }

  lemma AwaitedExactly(es: seq<Entry>, u: Upload)
    ensures CanReconnect(es, u) <==> exists i :: Awaited(es, u, i)
  {
    if CanReconnect(es, u) {
      var i := CountedOnce(es, u.id);
      assert Awaited(es, u, i);
    }
    if i :| Awaited(es, u, i) { OnlyIsCounted(es, u.id, i); }
  }

  /** An upload is in conflict exactly if its booklet is none of these. */
  lemma ConflictedExactly(es: seq<Entry>, u: Upload)
    ensures Conflicted(es, u) <==> !IsNew(es, u) && !Matching(es, u) && forall i :: !Awaited(es, u, i)
    ensures FileKnown(es, u) <==> exists e :: e in es && e.definitionId == Some(u.definitionId)
  {
    AwaitedExactly(es, u);
    if CanReconnect(es, u) {
      assert !FileTaken(es, u);
    } else {
      assert IdTaken(es, u) <==> exists e :: e in es && e.id == Some(u.id) && e.definitionId != Some(u.definitionId);
      assert FileTaken(es, u) <==> exists e :: e in es && e.definitionId == Some(u.definitionId) && Filled(e.id) && e.id != Some(u.id);
    }
  }

  /** The entry keeps its name, or has the title if it had none. */
  ghost predicate Links(e: Entry, e': Entry, u: Upload) {
    e'.id == Some(u.id) && e'.definitionId == Some(u.definitionId) && e'.name == (if Filled(e.name) then e.name else Some(u.title))
  }

  /** What the turn of an upload does to the entries: a new booklet is added, an entry that waits for its
      file gets it, entries that have the file get the id; otherwise, and if two uploads have the id,
      nothing changes and a warning is given. */
  lemma UploadsAreRegistered(parts: seq<Part>, uploads: seq<Upload>, u: Upload, instrumentId: string)
    requires parts != []
    ensures var es, next, warned := Entries(parts), Entries(Processed(parts, uploads, u, instrumentId).0), Processed(parts, uploads, u, instrumentId).1;
      if IsDoubled(uploads, u) then next == es && warned == {Doubled(u.id, u.definitionId)}
      else if IsNew(es, u) then Inserted(es, next, Entry(Some(u.id), Some(u.title), Some(u.definitionId))) && warned == {}
      else if exists i :: Awaited(es, u, i) then
        |next| == |es| && warned == {} && forall i :: 0 <= i < |es| ==> if Awaited(es, u, i) then Links(es[i], next[i], u) else next[i] == es[i]
      else if Matching(es, u) then
        |next| == |es| && warned == {} &&
        forall i :: 0 <= i < |es| ==> if es[i].definitionId == Some(u.definitionId) then Links(es[i], next[i], u) else next[i] == es[i]
      else next == es && warned == {Conflicting(u.id, u.definitionId)}
  {
    var es := Entries(parts);
    ConflictedExactly(es, u);
    AwaitedExactly(es, u);
    ProcessedEntries(parts, uploads, u, instrumentId);
  }

  // ------------------------------------------------------------- nothing configured is lost

  /** What was filled in stays. */
  predicate Keeps(a: Entry, b: Entry) {
    (Filled(a.id) ==> b.id == a.id) && (Filled(a.name) ==> b.name == a.name) && (Filled(a.definitionId) ==> b.definitionId == a.definitionId)
  }

  /** Entry `i` has become entry `at[i]`, and the order is the same. */
  ghost predicate Embeds(es: seq<Entry>, next: seq<Entry>, at: seq<nat>) {
    && |at| == |es|
    && (forall i :: 0 <= i < |es| ==> at[i] < |next| && Keeps(es[i], next[at[i]]))
    && (forall i, j :: 0 <= i < j < |es| ==> at[i] < at[j])
  }

  lemma InPlaceEmbeds(es: seq<Entry>, next: seq<Entry>) returns (at: seq<nat>)
    requires |next| == |es| && forall i :: 0 <= i < |es| ==> Keeps(es[i], next[i])
    ensures Embeds(es, next, at)
  {
    at := seq(|es|, i => i);
  }

  lemma InsertedEmbeds(es: seq<Entry>, next: seq<Entry>, e: Entry) returns (at: seq<nat>)
    requires Inserted(es, next, e)
    ensures Embeds(es, next, at)
  {
    var k :| 0 <= k <= |es| && next == es[..k] + [e] + es[k..];
    at := seq(|es|, i => if i < k then i else i + 1);
    forall i | 0 <= i < |es| ensures at[i] < |next| && Keeps(es[i], next[at[i]]) {
      assert next[at[i]] == es[i];
    }
  }

  lemma ReconnectKeeps(es: seq<Entry>, u: Upload, i: nat)
    requires CanReconnect(es, u) && i < |es|
    ensures Keeps(es[i], Reconnect(u)(es[i]))
  {
  }

  lemma IdentifyKeeps(es: seq<Entry>, u: Upload, i: nat)
    requires !FileTaken(es, u) && i < |es|
    ensures Keeps(es[i], Identify(u)(es[i]))
  {
  }

  lemma ChangeEmbeds(es: seq<Entry>, next: seq<Entry>, uploads: seq<Upload>, u: Upload) returns (at: seq<nat>)
    requires Changed(es, next, u, ChangeOf(es, uploads, u))
    ensures Embeds(es, next, at)
  {
    match ChangeOf(es, uploads, u)
    case Same => at := InPlaceEmbeds(es, next);
    case Reconnected =>
      forall i | 0 <= i < |es| ensures Keeps(es[i], next[i]) { ReconnectKeeps(es, u, i); }
      at := InPlaceEmbeds(es, next);
    case Identified =>
      forall i | 0 <= i < |es| ensures Keeps(es[i], next[i]) { IdentifyKeeps(es, u, i); }
      at := InPlaceEmbeds(es, next);
    case Added => at := InsertedEmbeds(es, next, NewEntry(u));
  }

  // ------------------------------------------------------------------------------ traces

  /** The entries before the first upload and after each upload. */
  ghost predicate Trace(t: seq<seq<Entry>>, all: seq<Upload>) {
    |t| == |all| + 1 && forall i :: 0 <= i < |all| ==> TurnAt(t, all, i)
  }

  ghost predicate TurnAt(t: seq<seq<Entry>>, all: seq<Upload>, i: nat)
    requires i < |all| && |t| == |all| + 1
  {
    Changed(t[i], t[i + 1], all[i], ChangeOf(t[i], all, all[i]))
  }

  function TraceOf(parts: seq<Part>, all: seq<Upload>, turn: Turn): seq<seq<Entry>> {
    seq(|all| + 1, i requires 0 <= i < |all| + 1 => Entries(Register(parts, all, i, turn).0))
  }

  lemma {:induction false} SomePart(parts: seq<Part>, all: seq<Upload>, n: nat, turn: Turn)
    requires parts != [] && n <= |all| && forall p, u :: p != [] ==> turn(p, u).0 != []
    ensures Register(parts, all, n, turn).0 != []
  {
    if n > 0 { SomePart(parts, all, n - 1, turn); }
  }

  lemma TurnsKeepParts(all: seq<Upload>, pick: Pick, parts: seq<Part>, u: Upload)
    requires parts != []
    ensures TurnOf(all, pick)(parts, u).0 != []
    ensures Changed(Entries(parts), Entries(TurnOf(all, pick)(parts, u).0), u, ChangeOf(Entries(parts), all, u))
  {
    ProcessedEntries(parts, all, u, pick(u, InstrumentIds(parts[0])));
  }

  lemma TraceTurn(parts: seq<Part>, all: seq<Upload>, pick: Pick, i: nat)
    requires parts != [] && i < |all|
    ensures TurnAt(TraceOf(parts, all, TurnOf(all, pick)), all, i)
  {
    var turn := TurnOf(all, pick);
    forall p, u | p != [] ensures turn(p, u).0 != [] { TurnsKeepParts(all, pick, p, u); }
    SomePart(parts, all, i, turn);
    TurnsKeepParts(all, pick, Register(parts, all, i, turn).0, all[i]);
  }

  lemma RegisterHasTrace(parts: seq<Part>, all: seq<Upload>, pick: Pick)
    requires parts != []
    ensures Trace(TraceOf(parts, all, TurnOf(all, pick)), all)
  {
    forall i | 0 <= i < |all| ensures TurnAt(TraceOf(parts, all, TurnOf(all, pick)), all, i) { TraceTurn(parts, all, pick, i); }
  }

  ghost predicate Embedded(es: seq<Entry>, next: seq<Entry>) { exists at :: Embeds(es, next, at) }

  lemma EmbeddedTwice(a: seq<Entry>, b: seq<Entry>, c: seq<Entry>)
    requires Embedded(a, b) && Embedded(b, c)
    ensures Embedded(a, c)
  {
    var first :| Embeds(a, b, first);
    var second :| Embeds(b, c, second);
    var at := seq(|a|, i requires 0 <= i < |a| => second[first[i]]);
    forall i | 0 <= i < |a| ensures at[i] < |c| && Keeps(a[i], c[at[i]]) {
      assert Keeps(a[i], b[first[i]]) && Keeps(b[first[i]], c[second[first[i]]]);
    }
    assert Embeds(a, c, at);
  }

  lemma {:induction false} TraceKeepsEverything(t: seq<seq<Entry>>, all: seq<Upload>, n: nat)
    requires Trace(t, all) && n <= |all|
    ensures Embedded(t[0], t[n])
  {
    if n == 0 {
      var at := InPlaceEmbeds(t[0], t[0]);
    } else {
      TraceKeepsEverything(t, all, n - 1);
      assert TurnAt(t, all, n - 1);
      var at := ChangeEmbeds(t[n - 1], t[n], all, all[n - 1]);
      EmbeddedTwice(t[0], t[n - 1], t[n]);
    }
  }

  /** Registering loses no entry and replaces nothing that is filled in. */
  lemma RegisteringKeepsEverything(parts: seq<Part>, all: seq<Upload>, pick: Pick)
    requires parts != []
    ensures Embedded(Entries(parts), Entries(Register(parts, all, |all|, TurnOf(all, pick)).0))
  {
    RegisterHasTrace(parts, all, pick);
    TraceKeepsEverything(TraceOf(parts, all, TurnOf(all, pick)), all, |all|);
  }

  // ------------------------------------------------------------------- one id for each file

  predicate HoldsFile(e: Entry, file: string) { e.definitionId == Some(file) && Filled(e.id) }

  /** The filled ids of the entries of a file are the same. */
  ghost predicate OneId(es: seq<Entry>, file: string) {
    forall i, j :: 0 <= i < |es| && 0 <= j < |es| && HoldsFile(es[i], file) && HoldsFile(es[j], file) ==> es[i].id == es[j].id
  }

  lemma ReconnectingKeepsOneId(es: seq<Entry>, next: seq<Entry>, uploads: seq<Upload>, u: Upload, file: string)
    requires OneId(es, file) && next == MapEntries(es, Reconnect(u)) && ChangeOf(es, uploads, u) == Reconnected
    ensures OneId(next, file)
  {
    if file == u.definitionId {
      assert forall i :: 0 <= i < |es| && next[i].definitionId == Some(file) ==> es[i].id == Some(u.id);
    } else {
      assert forall i :: 0 <= i < |es| && next[i].definitionId == Some(file) ==> next[i] == es[i];
    }
  }

  lemma IdentifyingKeepsOneId(es: seq<Entry>, next: seq<Entry>, uploads: seq<Upload>, u: Upload, file: string)
    requires OneId(es, file) && next == MapEntries(es, Identify(u)) && ChangeOf(es, uploads, u) == Identified
    ensures OneId(next, file)
  {
    if file == u.definitionId {
      assert forall i :: 0 <= i < |es| && next[i].definitionId == Some(file) ==> next[i].id == Some(u.id);
    } else {
      assert forall i :: 0 <= i < |es| && next[i].definitionId == Some(file) ==> next[i] == es[i];
    }
  }

  lemma AddingKeepsOneId(es: seq<Entry>, next: seq<Entry>, uploads: seq<Upload>, u: Upload, file: string)
    requires OneId(es, file) && Inserted(es, next, NewEntry(u)) && ChangeOf(es, uploads, u) == Added
    ensures OneId(next, file)
  {
    var k :| 0 <= k <= |es| && next == es[..k] + [NewEntry(u)] + es[k..];
    assert forall i :: 0 <= i < k ==> next[i] == es[i];
    assert forall i :: k < i < |next| ==> next[i] == es[i - 1];
    assert file == u.definitionId ==> forall i :: 0 <= i < |es| ==> es[i].definitionId != Some(file);
  }

  lemma ChangeKeepsOneId(es: seq<Entry>, next: seq<Entry>, uploads: seq<Upload>, u: Upload, file: string)
    requires OneId(es, file) && Changed(es, next, u, ChangeOf(es, uploads, u))
    ensures OneId(next, file)
  {
    match ChangeOf(es, uploads, u)
    case Same =>
    case Reconnected => ReconnectingKeepsOneId(es, next, uploads, u, file);
    case Identified => IdentifyingKeepsOneId(es, next, uploads, u, file);
    case Added => AddingKeepsOneId(es, next, uploads, u, file);
  }

  lemma {:induction false} TraceKeepsOneId(t: seq<seq<Entry>>, all: seq<Upload>, n: nat, file: string)
    requires Trace(t, all) && n <= |all| && OneId(t[0], file)
    ensures OneId(t[n], file)
  {
    if n > 0 {
      TraceKeepsOneId(t, all, n - 1, file);
      assert TurnAt(t, all, n - 1);
      ChangeKeepsOneId(t[n - 1], t[n], all, all[n - 1], file);
    }
  }

  /** A file that had one booklet id at most still has one at most. */
  lemma FilesKeepOneId(parts: seq<Part>, all: seq<Upload>, pick: Pick, file: string)
    requires parts != [] && OneId(Entries(parts), file)
    ensures OneId(Entries(Register(parts, all, |all|, TurnOf(all, pick)).0), file)
  {
    RegisterHasTrace(parts, all, pick);
    TraceKeepsOneId(TraceOf(parts, all, TurnOf(all, pick)), all, |all|, file);
  }

  // ------------------------------------------------------------- registering once is enough

  /** The upload has been linked: its file and its id belong together. */
  ghost predicate Linked(es: seq<Entry>, u: Upload) {
    && FileKnown(es, u)
    && (forall i :: 0 <= i < |es| && es[i].definitionId == Some(u.definitionId) ==> es[i].id == Some(u.id) && Named(es[i], u.title) == es[i])
    && (forall i :: 0 <= i < |es| && es[i].id == Some(u.id) ==> es[i].definitionId == Some(u.definitionId))
  }

  lemma {:induction false} CountPositive(es: seq<Entry>, id: string)
    ensures Count(es, HasId(id)) > 0 <==> exists i :: 0 <= i < |es| && es[i].id == Some(id)
  {
    if es != [] {
      CountPositive(es[..|es| - 1], id);
      assert forall i :: 0 <= i < |es| - 1 ==> es[..|es| - 1][i] == es[i];
      assert Count(es, HasId(id)) > 0 <==> Count(es[..|es| - 1], HasId(id)) > 0 || es[|es| - 1].id == Some(id);
    }
  }

  /** After its turn an upload is linked or in conflict. */
  lemma SettledByItsTurn(es: seq<Entry>, next: seq<Entry>, uploads: seq<Upload>, u: Upload)
    requires !IsDoubled(uploads, u) && Changed(es, next, u, ChangeOf(es, uploads, u))
    ensures if Conflicted(es, u) then Conflicted(next, u) else Linked(next, u)
  {
    match ChangeOf(es, uploads, u)
    case Same =>
    case Reconnected =>
      CountPositive(es, u.id);
      var i :| 0 <= i < |es| && es[i].id == Some(u.id);
      assert next[i].definitionId == Some(u.definitionId);
    case Identified =>
      var i :| 0 <= i < |es| && es[i].definitionId == Some(u.definitionId);
      assert next[i].definitionId == Some(u.definitionId);
    case Added =>
      var k :| 0 <= k <= |es| && next == es[..k] + [NewEntry(u)] + es[k..];
      assert next[k] == NewEntry(u);
      assert forall i :: 0 <= i < k ==> next[i] == es[i];
      assert forall i :: k < i < |next| ==> next[i] == es[i - 1];
  }

  predicate Good(u: Upload) { u.id != "" && u.definitionId != "" }

  /** Linked entries are left alone by the turns of other uploads. */
  lemma LinkedStays(es: seq<Entry>, next: seq<Entry>, uploads: seq<Upload>, u: Upload, v: Upload)
    requires Good(u) && Good(v) && u.id != v.id && Linked(es, u) && Changed(es, next, v, ChangeOf(es, uploads, v))
    ensures Linked(next, u)
  {
    var i :| 0 <= i < |es| && es[i].definitionId == Some(u.definitionId);
    match ChangeOf(es, uploads, v)
    case Same =>
    case Reconnected =>
      assert v.definitionId != u.definitionId;
      assert next[i] == es[i];
    case Identified =>
      assert v.definitionId != u.definitionId;
      assert next[i] == es[i];
    case Added => LinkedBesidesNew(es, next, u, v);
  }

  lemma LinkedBesidesNew(es: seq<Entry>, next: seq<Entry>, u: Upload, v: Upload)
    requires u.id != v.id && Linked(es, u) && !FileKnown(es, v) && Inserted(es, next, NewEntry(v))
    ensures Linked(next, u)
  {
    var i :| 0 <= i < |es| && es[i].definitionId == Some(u.definitionId);
    var k :| 0 <= k <= |es| && next == es[..k] + [NewEntry(v)] + es[k..];
    assert next[if i < k then i else i + 1] == es[i];
    assert forall j :: 0 <= j < k ==> next[j] == es[j];
    assert next[k] == NewEntry(v);
    assert forall j :: k < j < |next| ==> next[j] == es[j - 1];
  }

  // What makes a conflict is not undone by the turns of other uploads.

  lemma FileStaysTaken(es: seq<Entry>, next: seq<Entry>, uploads: seq<Upload>, u: Upload, v: Upload)
    requires Good(u) && Good(v) && u.id != v.id && FileTaken(es, u) && Changed(es, next, v, ChangeOf(es, uploads, v))
    ensures FileTaken(next, u)
  {
    var i :| 0 <= i < |es| && es[i].definitionId == Some(u.definitionId) && Filled(es[i].id) && es[i].id != Some(u.id);
    match ChangeOf(es, uploads, v)
    case Same =>
    case Reconnected => assert next[i].definitionId == es[i].definitionId && next[i].id == es[i].id;
    case Identified => assert next[i].definitionId == es[i].definitionId && next[i].id == es[i].id;
    case Added =>
      var k :| 0 <= k <= |es| && next == es[..k] + [NewEntry(v)] + es[k..];
      assert next[if i < k then i else i + 1] == es[i];
  }

  /** Entries of this id stay what they are, and there are no more of them. */
  lemma SameEntriesOfId(es: seq<Entry>, next: seq<Entry>, uploads: seq<Upload>, u: Upload, v: Upload)
    requires Good(u) && Good(v) && u.id != v.id && Changed(es, next, v, ChangeOf(es, uploads, v))
    requires !(exists i :: 0 <= i < |es| && es[i].id == Some(u.id) && es[i].definitionId == Some(v.definitionId)) || !ChangeOf(es, uploads, v).Identified?
    ensures Count(next, HasId(u.id)) == Count(es, HasId(u.id))
    ensures IdTaken(next, u) <==> IdTaken(es, u)
    ensures IdLinked(next, u) <==> IdLinked(es, u)
  {
    match ChangeOf(es, uploads, v)
    case Same =>
    case Reconnected =>
      CountMapped(es, Reconnect(v), HasId(u.id));
      assert forall i :: 0 <= i < |es| ==> (next[i].id == Some(u.id) <==> es[i].id == Some(u.id)) && (es[i].id == Some(u.id) ==> next[i] == es[i]);
    case Identified =>
      forall e | e in es ensures HasId(u.id)(Identify(v)(e)) == HasId(u.id)(e) {
        var i :| 0 <= i < |es| && es[i] == e;
      }
      CountMapped(es, Identify(v), HasId(u.id));
      assert forall i :: 0 <= i < |es| ==> (next[i].id == Some(u.id) <==> es[i].id == Some(u.id)) && (es[i].id == Some(u.id) ==> next[i] == es[i]);
    case Added => SameBesidesNew(es, next, u, v);
  }

  lemma CountInserted(a: seq<Entry>, e: Entry, b: seq<Entry>, q: Entry -> bool)
    requires !q(e)
    ensures Count(a + [e] + b, q) == Count(a + b, q)
  {
    CountConcat(a + [e], b, q);
    CountConcat(a, b, q);
    assert (a + [e])[..|a|] == a;
  }

  lemma CountBesidesNew(es: seq<Entry>, next: seq<Entry>, u: Upload, v: Upload)
    requires u.id != v.id && Inserted(es, next, NewEntry(v))
    ensures Count(next, HasId(u.id)) == Count(es, HasId(u.id))
  {
    var k :| 0 <= k <= |es| && next == es[..k] + [NewEntry(v)] + es[k..];
    CountInserted(es[..k], NewEntry(v), es[k..], HasId(u.id));
    assert es == es[..k] + es[k..];
  }

  lemma SameMembers(es: seq<Entry>, next: seq<Entry>, v: Upload, e: Entry)
    requires Inserted(es, next, NewEntry(v)) && e.id != Some(v.id)
    ensures e in next <==> e in es
  {
    var k :| 0 <= k <= |es| && next == es[..k] + [NewEntry(v)] + es[k..];
    assert es == es[..k] + es[k..];
    assert e in next <==> e in es[..k] || e in es[k..];
    assert e in es[..k] + es[k..] <==> e in es[..k] || e in es[k..];
  }

  lemma SameBesidesNew(es: seq<Entry>, next: seq<Entry>, u: Upload, v: Upload)
    requires u.id != v.id && Inserted(es, next, NewEntry(v))
    ensures Count(next, HasId(u.id)) == Count(es, HasId(u.id))
    ensures IdTaken(next, u) <==> IdTaken(es, u)
    ensures IdLinked(next, u) <==> IdLinked(es, u)
  {
    CountBesidesNew(es, next, u, v);
    forall e: Entry | e.id == Some(u.id) ensures e in next <==> e in es { SameMembers(es, next, v, e); }
    ById(es, u);
    ById(next, u);
  }

  lemma ById(es: seq<Entry>, u: Upload)
    ensures IdTaken(es, u) <==> exists e :: e in es && e.id == Some(u.id) && e.definitionId != Some(u.definitionId)
    ensures IdLinked(es, u) <==> exists e :: e in es && e.id == Some(u.id) && Filled(e.definitionId)
  {
  }

  lemma FileStaysKnown(es: seq<Entry>, next: seq<Entry>, uploads: seq<Upload>, u: Upload, v: Upload)
    requires Good(u) && Good(v) && u.id != v.id && FileKnown(es, u) && Changed(es, next, v, ChangeOf(es, uploads, v))
    ensures FileKnown(next, u)
  {
    var i :| 0 <= i < |es| && es[i].definitionId == Some(u.definitionId);
    match ChangeOf(es, uploads, v)
    case Same =>
    case Reconnected => assert next[i].definitionId == es[i].definitionId;
    case Identified => assert next[i].definitionId == es[i].definitionId;
    case Added =>
      var k :| 0 <= k <= |es| && next == es[..k] + [NewEntry(v)] + es[k..];
      assert next[if i < k then i else i + 1] == es[i];
  }

  lemma ConflictStays(es: seq<Entry>, next: seq<Entry>, uploads: seq<Upload>, u: Upload, v: Upload)
    requires Good(u) && Good(v) && u.id != v.id && Conflicted(es, u) && Changed(es, next, v, ChangeOf(es, uploads, v))
    ensures Conflicted(next, u)
  {
    if FileTaken(es, u) {
      FileStaysTaken(es, next, uploads, u, v);
    } else {
      if ChangeOf(es, uploads, v).Identified? {
        assert forall i :: 0 <= i < |es| && es[i].definitionId == Some(v.definitionId) ==> es[i].id != Some(u.id);
      }
      SameEntriesOfId(es, next, uploads, u, v);
      if FileKnown(es, u) { FileStaysKnown(es, next, uploads, u, v); }
    }
  }

  /** The warning that the turn of an upload gives. */
  function WarningOf(es: seq<Entry>, all: seq<Upload>, u: Upload): set<Warning> {
    if IsDoubled(all, u) then {Doubled(u.id, u.definitionId)}
    else if Conflicted(es, u) then {Conflicting(u.id, u.definitionId)}
    else {}
  }

  /** An upload that has had its turn: it is left out for good, or linked. */
  ghost predicate Settled(es: seq<Entry>, all: seq<Upload>, u: Upload) {
    IsDoubled(all, u) || Conflicted(es, u) || Linked(es, u)
  }

  lemma NotDoubled(all: seq<Upload>, j: nat, k: nat)
    requires j < |all| && k < |all| && j != k && !IsDoubled(all, all[k])
    ensures all[j].id != all[k].id
  {
  }

  /** The turns of other uploads leave an upload settled, with the same warning. */
  lemma SettledStays(es: seq<Entry>, next: seq<Entry>, all: seq<Upload>, k: nat, n: nat)
    requires k < |all| && n < |all| && k != n && Good(all[k]) && Good(all[n]) && Settled(es, all, all[k])
    requires Changed(es, next, all[n], ChangeOf(es, all, all[n]))
    ensures Settled(next, all, all[k]) && WarningOf(next, all, all[k]) == WarningOf(es, all, all[k])
  {
    if !IsDoubled(all, all[k]) {
      NotDoubled(all, n, k);
      if Conflicted(es, all[k]) {
        ConflictStays(es, next, all, all[k], all[n]);
      } else {
        LinkedStays(es, next, all, all[k], all[n]);
        LinkedIsNoConflict(next, all[k]);
      }
    }
  }

  lemma SettledByTurn(es: seq<Entry>, next: seq<Entry>, all: seq<Upload>, u: Upload)
    requires Changed(es, next, u, ChangeOf(es, all, u))
    ensures Settled(next, all, u) && WarningOf(next, all, u) == WarningOf(es, all, u)
  {
    if !IsDoubled(all, u) {
      SettledByItsTurn(es, next, all, u);
      if Linked(next, u) { LinkedIsNoConflict(next, u); }
    }
  }

  lemma LinkedIsNoConflict(es: seq<Entry>, u: Upload)
    requires Linked(es, u)
    ensures !Conflicted(es, u) && !CanReconnect(es, u)
  {
  }

  lemma {:induction false} AllSettle(t: seq<seq<Entry>>, all: seq<Upload>, n: nat, k: nat)
    requires Trace(t, all) && k < n <= |all| && forall i :: 0 <= i < |all| ==> Good(all[i])
    ensures Settled(t[n], all, all[k]) && WarningOf(t[n], all, all[k]) == WarningOf(t[k], all, all[k])
  {
    assert TurnAt(t, all, n - 1);
    if k == n - 1 {
      SettledByTurn(t[k], t[n], all, all[k]);
    } else {
      AllSettle(t, all, n - 1, k);
      SettledStays(t[n - 1], t[n], all, k, n - 1);
    }
  }

  // ------------------------------------------------------------------------ the second time

  lemma {:induction false} InPart(part: Part, i: nat, j: nat)
    requires i < |part| && j < |part[i].booklets|
    ensures part[i].booklets[j] in OfPart(part)
  {
    var n := |part| - 1;
    if i < n { InPart(part[..n], i, j); }
  }

  lemma {:induction false} InEntries(parts: seq<Part>, k: nat, e: Entry)
    requires k < |parts| && e in OfPart(parts[k])
    ensures e in Entries(parts)
  {
    var n := |parts| - 1;
    if k < n { InEntries(parts[..n], k, e); }
  }

  /** What changes no entry changes nothing. */
  lemma MappedToItself(parts: seq<Part>, f: Entry -> Entry)
    requires forall e :: e in Entries(parts) ==> f(e) == e
    ensures MapParts(parts, f) == parts
  {
    forall k | 0 <= k < |parts| ensures MapPart(parts[k], f) == parts[k] {
      forall i | 0 <= i < |parts[k]| ensures MapEntries(parts[k][i].booklets, f) == parts[k][i].booklets {
        forall j | 0 <= j < |parts[k][i].booklets| ensures f(parts[k][i].booklets[j]) == parts[k][i].booklets[j] {
          InPart(parts[k], i, j);
          InEntries(parts, k, parts[k][i].booklets[j]);
        }
      }
    }
  }

  /** The turn of a settled upload changes nothing. */
  lemma SettledTurn(parts: seq<Part>, all: seq<Upload>, u: Upload, pick: Pick)
    requires parts != [] && Settled(Entries(parts), all, u)
    ensures TurnOf(all, pick)(parts, u).0 == parts
  {
    var es := Entries(parts);
    TurnIs(all, pick, parts, u);
    if !IsDoubled(all, u) && !Conflicted(es, u) {
      LinkedIsNoConflict(es, u);
      forall e | e in es ensures Identify(u)(e) == e {
        var i :| 0 <= i < |es| && es[i] == e;
      }
      MappedToItself(parts, Identify(u));
    }
  }

  lemma GivenWarning(parts: seq<Part>, all: seq<Upload>, u: Upload, pick: Pick)
    requires parts != []
    ensures TurnOf(all, pick)(parts, u).1 == WarningOf(Entries(parts), all, u)
  {
    TurnIs(all, pick, parts, u);
  }

  lemma {:induction false} NothingNew(parts: seq<Part>, all: seq<Upload>, n: nat, turn: Turn)
    requires n <= |all| && forall k :: 0 <= k < n ==> turn(parts, all[k]).0 == parts
    ensures Register(parts, all, n, turn).0 == parts
  {
    if n > 0 { NothingNew(parts, all, n - 1, turn); }
  }

  lemma {:induction false} SameWarnings(parts: seq<Part>, first: seq<Part>, all: seq<Upload>, n: nat, turn: Turn)
    requires n <= |all| && forall k :: 0 <= k < n ==> turn(first, all[k]).0 == first
    requires forall k :: 0 <= k < n ==> turn(Register(parts, all, k, turn).0, all[k]).1 == turn(first, all[k]).1
    ensures Register(first, all, n, turn).1 == Register(parts, all, n, turn).1
  {
    if n > 0 {
      SameWarnings(parts, first, all, n - 1, turn);
      NothingNew(first, all, n - 1, turn);
    }
  }

  lemma SecondTurn(parts: seq<Part>, all: seq<Upload>, pick: Pick, k: nat)
    requires parts != [] && k < |all| && forall i :: 0 <= i < |all| ==> Good(all[i])
    ensures var turn := TurnOf(all, pick);
      var first := Register(parts, all, |all|, turn).0;
      && turn(first, all[k]).0 == first
      && turn(Register(parts, all, k, turn).0, all[k]).1 == turn(first, all[k]).1
  {
    var turn := TurnOf(all, pick);
    var first, before := Register(parts, all, |all|, turn).0, Register(parts, all, k, turn).0;
    forall p, u | p != [] ensures turn(p, u).0 != [] { TurnsKeepParts(all, pick, p, u); }
    SomePart(parts, all, |all|, turn);
    SomePart(parts, all, k, turn);
    RegisterHasTrace(parts, all, pick);
    AllSettle(TraceOf(parts, all, turn), all, |all|, k);
    SettledTurn(first, all, all[k], pick);
    GivenWarning(first, all, all[k], pick);
    GivenWarning(before, all, all[k], pick);
  }

  /** Registering the same uploads again changes nothing and gives the same warnings. */
  lemma RegisteringIsIdempotent(parts: seq<Part>, all: seq<Upload>, pick: Pick)
    requires parts != [] && forall i :: 0 <= i < |all| ==> Good(all[i])
    ensures var turn := TurnOf(all, pick);
      Register(Register(parts, all, |all|, turn).0, all, |all|, turn) == Register(parts, all, |all|, turn)
  {
    var turn := TurnOf(all, pick);
    var first := Register(parts, all, |all|, turn).0;
    forall k | 0 <= k < |all|
      ensures turn(first, all[k]).0 == first && turn(Register(parts, all, k, turn).0, all[k]).1 == turn(first, all[k]).1
    {
      SecondTurn(parts, all, pick, k);
    }
    NothingNew(first, all, |all|, turn);
    SameWarnings(parts, first, all, |all|, turn);
  }
}
