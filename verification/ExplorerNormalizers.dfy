/** backend/src/item-explorer/item-explorer-state.service.ts and preview-context.ts: the
    normalisers through which every shared state of the Item Explorer passes. An absent
    property is `Undefined`; the properties the code asks for by name are fields. */
module ExplorerNormalizers {
  import opened JsObjects
  import opened Outcomes
  import opened Text
  import ItemRowKey

  datatype Json =
    | Undefined
    | Null
    | Bool(b: bool)
    | Num(n: real)
    | Str(s: string)
    | Arr(items: seq<Json>)
    | Obj(entries: seq<(string, Json)>)

  type Properties = seq<(string, Json)>

  /** What the code asks of the language: `String(v)` and `Number(v)` on values of other types,
      and three tests on preview contexts. */
  datatype Env = Env(
    show: Json -> string,
    number: Json -> Option<real>,
    isDefinitionKey: string -> bool,
    fits: Properties -> bool,
    parsesToArray: string -> bool)

  /** `String(v || "")` */
  function Shown(env: Env, v: Json): string {
    match v
    case Str(s) => s
    case Undefined => ""
    case Null => ""
    case Bool(b) => if b then "true" else ""
    case Num(n) => if n == 0.0 then "" else env.show(v)
    case _ => env.show(v)
  }

  /** `Number(v)`, when it is finite. */
  function Number(env: Env, v: Json): Option<real> {
    match v
    case Num(n) => Some(n)
    case Undefined => None
    case Null => Some(0.0)
    case Bool(b) => Some(if b then 1.0 else 0.0)
    case _ => env.number(v)
  }

  /** `asRecord` */
  function AsRecord(v: Json): Properties {
    if v.Obj? then v.entries else []
  }

  // ----------------------------------------------------------------------------- labels

  function LabelsOf(env: Env, items: seq<Json>): seq<string> {
    if items == [] then []
    else
      var rest, s := LabelsOf(env, items[..|items| - 1]), Trim(Shown(env, items[|items| - 1]));
      if s == "" || s in rest then rest else rest + [s]
  }

  /** `asStringArray` and `normalizeTagArray`: trimmed, not empty, each once. */
  function Labels(env: Env, v: Json): seq<string> {
    if v.Arr? then LabelsOf(env, v.items) else []
  }

  ghost predicate AreLabels(s: seq<string>) {
    && (forall i :: 0 <= i < |s| ==> s[i] != "" && Trimmed(s[i]))
    && (forall i, j :: 0 <= i < j < |s| ==> s[i] != s[j])
  }

  function Strings(s: seq<string>): Json {
    Arr(seq(|s|, i requires 0 <= i < |s| => Str(s[i])))
  }

  lemma {:induction false} LabelsShape(env: Env, items: seq<Json>)
    ensures AreLabels(LabelsOf(env, items))
  {
    if items != [] {
      LabelsShape(env, items[..|items| - 1]);
      TrimIsTrimmed(Shown(env, items[|items| - 1]));
    }
  }

  /** Some value reads as the string without the white space around it. */
  ghost predicate ReadsAs(env: Env, items: seq<Json>, s: string) {
    exists i :: 0 <= i < |items| && Trim(Shown(env, items[i])) == s
  }

  lemma ReadsAsOneMore(env: Env, items: seq<Json>, s: string)
    requires items != []
    ensures ReadsAs(env, items, s) <==> ReadsAs(env, items[..|items| - 1], s) || Trim(Shown(env, items[|items| - 1])) == s
  {
    var n := |items| - 1;
    if ReadsAs(env, items[..n], s) {
      var i :| 0 <= i < n && Trim(Shown(env, items[..n][i])) == s;
      assert Trim(Shown(env, items[i])) == s;
    }
    if ReadsAs(env, items, s) {
      var i :| 0 <= i < |items| && Trim(Shown(env, items[i])) == s;
      if i < n { assert Trim(Shown(env, items[..n][i])) == s; }
    }
  }

  /** Exactly the strings that some value reads as are labels, but for the empty one. */
  lemma {:induction false} LabelsExactly(env: Env, items: seq<Json>, s: string)
    ensures s in LabelsOf(env, items) <==> s != "" && ReadsAs(env, items, s)
  {
    if items != [] {
      LabelsExactly(env, items[..|items| - 1], s);
      ReadsAsOneMore(env, items, s);
    }
  }

  lemma {:induction false} LabelsKept(env: Env, s: seq<string>)
    requires AreLabels(s)
    ensures LabelsOf(env, Strings(s).items) == s
  {
    if s != [] {
      var n := |s| - 1;
      LabelsKept(env, s[..n]);
      TrimFixpoint(s[n]);
      var items := Strings(s).items;
      assert items[..n] == Strings(s[..n]).items && items[n] == Str(s[n]);
      assert s == s[..n] + [s[n]];
      assert s[n] !in s[..n];
    }
  }

  // -------------------------------------------------------------------------------- tags

  function TagEntry(env: Env): (string, Json) -> Option<(string, seq<string>)> {
    (k: string, v: Json) => if Trim(k) == "" || !v.Arr? then None else Some((Trim(k), Labels(env, v)))
  }

  type Tags = seq<(string, seq<string>)>

  function TagsOf(env: Env, raw: Json): Tags {
    Collect(AsRecord(raw), TagEntry(env))
  }

  method NormalizeTags(env: Env, raw: Json) returns (tags: Tags)
    ensures tags == TagsOf(env, raw)
  {
    if !raw.Obj? { return []; }
    tags := [];
    var e := raw.entries;
    for i := 0 to |e|
      invariant tags == Collect(e[..i], TagEntry(env))
    {
      assert e[..i + 1][..i] == e[..i];
      var key := Trim(e[i].0);
      if key == "" || !e[i].1.Arr? { continue; }
      tags := Set(tags, key, Labels(env, e[i].1));
    }
    assert e[..|e|] == e;
  }

  ghost predicate IsTag(k: string, v: seq<string>) { k != "" && Trimmed(k) && AreLabels(v) }

  ghost predicate AreTags(t: Tags) { Unique(t) && All(t, IsTag) }

  function RawTags(t: Tags): Json {
    Obj(seq(|t|, i requires 0 <= i < |t| => (t[i].0, Strings(t[i].1))))
  }

  lemma TagsShape(env: Env, raw: Json)
    ensures AreTags(TagsOf(env, raw))
  {
    forall k: string, v: Json | TagEntry(env)(k, v).Some? ensures IsTag(TagEntry(env)(k, v).value.0, TagEntry(env)(k, v).value.1) {
      TrimIsTrimmed(k);
      LabelsShape(env, v.items);
    }
    CollectShape(AsRecord(raw), TagEntry(env), IsTag);
  }

  lemma TagsKept(env: Env, t: Tags)
    requires AreTags(t)
    ensures TagsOf(env, RawTags(t)) == t
  {
    var e := RawTags(t).entries;
    forall i | 0 <= i < |e| ensures TagEntry(env)(e[i].0, e[i].1) == Some(t[i]) {
      assert IsTag(t[i].0, t[i].1);
      TrimFixpoint(t[i].0);
      LabelsKept(env, t[i].1);
    }
    CollectKeeps(e, t, TagEntry(env));
  }

  // -------------------------------------------------------------------------------- widths

  type WidthTable = seq<(string, int)>

  function Take<T>(s: seq<T>, n: nat): seq<T> { if |s| <= n then s else s[..n] }

  function Clamp(x: real): int {
    var rounded := (x + 0.5).Floor;
    if rounded < 80 then 80 else if rounded > 600 then 600 else rounded
  }

  function WidthEntry(env: Env, length: nat): (string, Json) -> Option<(string, int)> {
    (k: string, v: Json) =>
      var id := Take(Trim(k), length);
      match Number(env, v)
      case None => None
      case Some(x) => if id == "" then None else Some((id, Clamp(x)))
  }

  /** At most `count` entries; names are trimmed and then cut. */
  function WidthsOf(env: Env, count: nat, length: nat, raw: Json): WidthTable {
    Collect(Take(AsRecord(raw), count), WidthEntry(env, length))
  }

  method NormalizeWidths(env: Env, count: nat, length: nat, raw: Json) returns (widths: WidthTable)
    ensures widths == WidthsOf(env, count, length, raw)
  {
    var e := Take(AsRecord(raw), count);
    widths := [];
    for i := 0 to |e|
      invariant widths == Collect(e[..i], WidthEntry(env, length))
    {
      assert e[..i + 1][..i] == e[..i];
      var id := Take(Trim(e[i].0), length);
      var width := Number(env, e[i].1);
      if id == "" || width == None { continue; }
      widths := Set(widths, id, Clamp(width.value));
    }
    assert e[..|e|] == e;
  }

  /** What is kept: a name that a cut may have left with white space at its end. */
  ghost function IsWidth(length: nat): (string, int) -> bool {
    (k: string, w: int) => k != "" && |k| <= length && !IsSpace(k[0]) && 80 <= w <= 600
  }

  ghost predicate AreWidths(count: nat, length: nat, w: WidthTable) {
    Unique(w) && |w| <= count && All(w, IsWidth(length))
  }

  ghost predicate TrimmedNames(w: WidthTable) {
    forall i :: 0 <= i < |w| ==> Trimmed(w[i].0)
  }

  function RawWidths(w: WidthTable): Json {
    Obj(seq(|w|, i requires 0 <= i < |w| => (w[i].0, Num(w[i].1 as real))))
  }

  lemma WidthsShape(env: Env, count: nat, length: nat, raw: Json)
    ensures AreWidths(count, length, WidthsOf(env, count, length, raw))
  {
    var f, p := WidthEntry(env, length), IsWidth(length);
    forall k: string, v: Json | f(k, v).Some? ensures p(f(k, v).value.0, f(k, v).value.1) { WidthOfEntry(env, length, k, v); }
    CollectShape(Take(AsRecord(raw), count), f, p);
  }

  lemma CutName(k: string, length: nat)
    requires Take(Trim(k), length) != ""
    ensures |Take(Trim(k), length)| <= length && !IsSpace(Take(Trim(k), length)[0])
  {
    TrimIsTrimmed(k);
    assert Take(Trim(k), length)[0] == Trim(k)[0];
  }

  lemma WidthOfEntry(env: Env, length: nat, k: string, v: Json)
    requires WidthEntry(env, length)(k, v).Some?
    ensures IsWidth(length)(WidthEntry(env, length)(k, v).value.0, WidthEntry(env, length)(k, v).value.1)
  {
    CutName(k, length);
    var x := Number(env, v).value;
    ClampRange(x);
    assert WidthEntry(env, length)(k, v).value == (Take(Trim(k), length), Clamp(x));
    assert IsWidth(length)(Take(Trim(k), length), Clamp(x));
  }

  lemma ClampRange(x: real)
    ensures 80 <= Clamp(x) <= 600
  {
  }

  /** Names that are not cut come out trimmed. */
  lemma ShortNamesAreTrimmed(env: Env, count: nat, length: nat, w: WidthTable)
    requires AreWidths(count, length, w)
    ensures TrimmedNames(WidthsOf(env, count, length, RawWidths(w)))
  {
    var e := RawWidths(w).entries;
    forall i | 0 <= i < |e| ensures |e[i].0| <= length {
      assert IsWidth(length)(w[i].0, w[i].1);
    }
    ShortNames(env, length, e);
  }

  lemma {:induction false} ShortNames(env: Env, length: nat, e: Properties)
    requires forall i :: 0 <= i < |e| ==> |e[i].0| <= length
    ensures TrimmedNames(Collect(e, WidthEntry(env, length)))
  {
    if e != [] {
      var rest, last := e[..|e| - 1], e[|e| - 1];
      ShortNames(env, length, rest);
      TrimIsTrimmed(last.0);
      var q := WidthEntry(env, length)(last.0, last.1);
      if q.Some? { SetShape(Collect(rest, WidthEntry(env, length)), q.value.0, q.value.1); }
    }
  }

  lemma TrimmedWidthsAreKept(env: Env, count: nat, length: nat, w: WidthTable)
    requires AreWidths(count, length, w)
    ensures WidthsOf(env, count, length, RawWidths(w)) == w <==> TrimmedNames(w)
  {
    ShortNamesAreTrimmed(env, count, length, w);
    if TrimmedNames(w) {
      var e := RawWidths(w).entries;
      forall i | 0 <= i < |e| ensures WidthEntry(env, length)(e[i].0, e[i].1) == Some(w[i]) {
        assert IsWidth(length)(w[i].0, w[i].1);
        TrimFixpoint(w[i].0);
        ClampKeeps(w[i].1);
      }
      CollectKeeps(e, w, WidthEntry(env, length));
    }
  }

  /** The cut falls right behind white space. */
  predicate CutAtSpace(length: nat, name: string) {
    0 < length < |Trim(name)| && IsSpace(Trim(name)[length - 1])
  }

  /** Among the entries that are looked at, no name with a width is cut right behind white space. */
  predicate CleanWidths(env: Env, count: nat, length: nat, raw: Json) {
    var e := Take(AsRecord(raw), count);
    forall i :: 0 <= i < |e| && Number(env, e[i].1).Some? ==> !CutAtSpace(length, e[i].0)
  }

  lemma CutNameTrimmed(length: nat, name: string)
    requires 0 < length
    ensures Trimmed(Take(Trim(name), length)) <==> !CutAtSpace(length, name)
    ensures CutAtSpace(length, name) ==> Take(Trim(name), length) != ""
  {
    TrimIsTrimmed(name);
  }

  /** Which raw widths come out with trimmed names. */
  lemma TrimmedExactlyIfClean(env: Env, count: nat, length: nat, raw: Json)
    requires 0 < length
    ensures TrimmedNames(WidthsOf(env, count, length, raw)) <==> CleanWidths(env, count, length, raw)
  {
    var e, f, w := Take(AsRecord(raw), count), WidthEntry(env, length), WidthsOf(env, count, length, raw);
    if CleanWidths(env, count, length, raw) {
      forall i | 0 <= i < |w| ensures Trimmed(w[i].0) {
        CollectNames(e, f, w[i].0);
        assert Names(w, w[i].0);
        var j :| 0 <= j < |e| && f(e[j].0, e[j].1).Some? && f(e[j].0, e[j].1).value.0 == w[i].0;
        CutNameTrimmed(length, e[j].0);
      }
    } else {
      var j :| 0 <= j < |e| && Number(env, e[j].1).Some? && CutAtSpace(length, e[j].0);
      CutNameTrimmed(length, e[j].0);
      var name := Take(Trim(e[j].0), length);
      assert f(e[j].0, e[j].1).Some? && f(e[j].0, e[j].1).value.0 == name;
      CollectNames(e, f, name);
      var i :| 0 <= i < |w| && w[i].0 == name;
      assert !Trimmed(w[i].0);
    }
  }

  /** Normalising widths a second time changes nothing exactly if no name with a width was cut
      right behind white space. */
  lemma WidthsFixpointExactly(env: Env, count: nat, length: nat, raw: Json)
    requires 0 < length
    ensures var w := WidthsOf(env, count, length, raw);
      WidthsOf(env, count, length, RawWidths(w)) == w <==> CleanWidths(env, count, length, raw)
  {
    WidthsShape(env, count, length, raw);
    TrimmedWidthsAreKept(env, count, length, WidthsOf(env, count, length, raw));
    TrimmedExactlyIfClean(env, count, length, raw);
  }

  lemma ClampKeeps(w: int)
    requires 80 <= w <= 600
    ensures Clamp(w as real) == w
  {
    assert (w as real + 0.5).Floor == w;
  }

  /** Widths are rounded and kept between 80 and 600. */
  lemma ClampIsNearest(x: real)
    ensures var w := Clamp(x) as real;
      if x < 80.0 then w == 80.0 else if x > 600.0 then w == 600.0 else x - 0.5 <= w <= x + 0.5
  {
  }

  // ------------------------------------------------------------------------ preview starts

  /** The value of a property, `Undefined` if there is none. */
  function Prop(e: Properties, k: string): Json {
    match Lookup(e, k)
    case None => Undefined
    case Some(v) => v
  }

  predicate IsPage(v: Json) {
    v.Num? && v.n == v.n.Floor as real && 0.0 <= v.n < 10000.0
  }

  predicate IsDataPart(env: Env, p: (string, Json)) {
    && (p.0 == "elementCodes" || p.0 == "stateVariableCodes" || p.0 == "geometryVariableCodes")
    && p.1.Str? && env.parsesToArray(p.1.s)
  }

  /** `normalizePreviewContext` */
  function PreviewContext(env: Env, v: Json): Option<Json> {
    if !v.Obj? then None
    else
      var key, target, page, parts := Prop(v.entries, "definitionKey"), Prop(v.entries, "target"), Prop(v.entries, "page"), Prop(v.entries, "dataParts");
      if key.Str? && env.isDefinitionKey(key.s) && target.Str? && Trim(target.s) != "" && |target.s| <= 256 && IsPage(page)
         && parts.Obj? && parts.entries != [] && (forall i :: 0 <= i < |parts.entries| ==> IsDataPart(env, parts.entries[i]))
         && env.fits(parts.entries)
      then Some(Obj([("definitionKey", key), ("target", Str(Trim(target.s))), ("page", page), ("dataParts", parts)]))
      else None
  }

  predicate ArePreviewValues(v: Json) {
    v.Obj? && |v.entries| <= 100
    && forall i :: 0 <= i < |v.entries| ==> |v.entries[i].0| <= 256 && v.entries[i].1.Str? && |v.entries[i].1.s| <= 4096
  }

  function PreviewStart(env: Env, v: Json): Option<Json> {
    if !v.Obj? then None
    else
      var page, values, context := Prop(v.entries, "page"), Prop(v.entries, "values"), Prop(v.entries, "context");
      var normalized := PreviewContext(env, context);
      if (context == Undefined || normalized.Some?) && ArePreviewValues(values) && (page == Undefined || IsPage(page)) then
        Some(Obj((if page == Undefined then [] else [("page", page)]) + [("values", values)]
                 + (if normalized.Some? then [("context", normalized.value)] else [])))
      else None
  }

  /** A preview start is accepted exactly with text values that are neither too many nor too long, and with
      a page and a context only if these are in order; nothing else of it is kept. */
  lemma PreviewStartExactly(env: Env, v: Json)
    ensures PreviewStart(env, v).Some? <==>
      && v.Obj? && ArePreviewValues(Prop(v.entries, "values"))
      && (Prop(v.entries, "page") == Undefined || IsPage(Prop(v.entries, "page")))
      && (Prop(v.entries, "context") == Undefined || PreviewContext(env, Prop(v.entries, "context")).Some?)
    ensures PreviewStart(env, v).Some? ==>
      var e := PreviewStart(env, v).value;
      && e.Obj? && Prop(e.entries, "values") == Prop(v.entries, "values") && Prop(e.entries, "page") == Prop(v.entries, "page")
      && (Prop(v.entries, "context").Obj? ==> PreviewContext(env, Prop(v.entries, "context")) == Some(Prop(e.entries, "context")))
  {
    if PreviewStart(env, v).Some? {
      var page, values, context := Prop(v.entries, "page"), Prop(v.entries, "values"), Prop(v.entries, "context");
      var normalized := PreviewContext(env, context);
      StartParts("page", "values", "context", page, values, if normalized.Some? then normalized.value else Undefined);
    }
  }

  lemma PreviewContextKept(env: Env, v: Json)
    requires PreviewContext(env, v).Some?
    ensures PreviewContext(env, PreviewContext(env, v).value) == PreviewContext(env, v)
  {
    var target, page, parts := Prop(v.entries, "target"), Prop(v.entries, "page"), Prop(v.entries, "dataParts");
    var e := PreviewContext(env, v).value.entries;
    TrimFixpoint(target.s);
    TrimIsTrimmed(target.s);
    FourProps("definitionKey", "target", "page", "dataParts", Prop(v.entries, "definitionKey"), Str(Trim(target.s)), page, parts);
  }

  lemma FourProps(a: string, b: string, c: string, d: string, va: Json, vb: Json, vc: Json, vd: Json)
    requires a != b && a != c && a != d && b != c && b != d && c != d
    ensures var e := [(a, va), (b, vb), (c, vc), (d, vd)];
      Prop(e, a) == va && Prop(e, b) == vb && Prop(e, c) == vc && Prop(e, d) == vd
  {
    var e := [(a, va), (b, vb), (c, vc), (d, vd)];
    assert Unique(e);
    LookupAt(e, 0);
    LookupAt(e, 1);
    LookupAt(e, 2);
    LookupAt(e, 3);
  }

  lemma PropMember(e: Properties, k: string, v: Json)
    requires Unique(e) && (k, v) in e
    ensures Prop(e, k) == v
  {
    var i :| 0 <= i < |e| && e[i] == (k, v);
    LookupAt(e, i);
  }

  lemma PropAbsent(e: Properties, k: string)
    requires forall i :: 0 <= i < |e| ==> e[i].0 != k
    ensures Prop(e, k) == Undefined
  {
    LookupFinds(e, k);
  }

  lemma PreviewStartKept(env: Env, v: Json)
    requires PreviewStart(env, v).Some?
    ensures PreviewStart(env, PreviewStart(env, v).value) == PreviewStart(env, v)
  {
    var page, values, context := Prop(v.entries, "page"), Prop(v.entries, "values"), Prop(v.entries, "context");
    var normalized := PreviewContext(env, context);
    if normalized.Some? { PreviewContextKept(env, context); }
    StartParts("page", "values", "context", page, values, if normalized.Some? then normalized.value else Undefined);
  }

  function Parts(a: string, b: string, c: string, va: Json, vb: Json, vc: Json): Properties {
    (if va == Undefined then [] else [(a, va)]) + [(b, vb)] + (if vc == Undefined then [] else [(c, vc)])
  }

  lemma StartParts(a: string, b: string, c: string, va: Json, vb: Json, vc: Json)
    requires a != b && a != c && b != c
    ensures Prop(Parts(a, b, c, va, vb, vc), a) == va && Prop(Parts(a, b, c, va, vb, vc), b) == vb && Prop(Parts(a, b, c, va, vb, vc), c) == vc
  {
    var e := Parts(a, b, c, va, vb, vc);
    assert Unique(e);
    if va == Undefined { PropAbsent(e, a); } else { assert e[0] == (a, va); PropMember(e, a, va); }
    assert e[if va == Undefined then 0 else 1] == (b, vb);
    PropMember(e, b, vb);
    if vc == Undefined { PropAbsent(e, c); } else { assert e[|e| - 1] == (c, vc); PropMember(e, c, vc); }
  }

  // ------------------------------------------------------------------------ item properties

  /** What becomes of one property of an item; rows of an item keep an empty or false value to
      override that of the item. */
  function Property(env: Env, ofRow: bool, k: string, v: Json): Option<Json> {
    if k == "tags" then Some(if v.Arr? then Strings(Labels(env, v)) else v)
    else if k == "empiricalDifficulty" then
      if v == Undefined || v == Null then Some(v)
      else
        match Number(env, v)
        case None => None
        case Some(x) => Some(Num(x))
    else if k == "previewStart" then PreviewStart(env, v)
    else if k == "previewTargetId" then
      if !v.Str? then None
      else if Trim(v.s) != "" then Some(Str(Trim(v.s)))
      else if ofRow then Some(Str("")) else None
    else if k == "excluded" then
      if !v.Bool? then None else if v.b || ofRow then Some(v) else None
    else Some(v)
  }

  /** The entries that `norm` retains, with the values it gives them. */
  function Retained(norm: (string, Json) -> Option<Json>, e: Properties): Properties {
    if e == [] then []
    else
      var (k, v) := e[|e| - 1];
      Retained(norm, e[..|e| - 1]) +
      match norm(k, v)
      case None => []
      case Some(v') => [(k, v')]
  }

  function Norm(env: Env, ofRow: bool): (string, Json) -> Option<Json> { (k: string, v: Json) => Property(env, ofRow, k, v) }

  function PropertiesOf(env: Env, ofRow: bool, e: Properties): Properties { Retained(Norm(env, ofRow), e) }

  predicate OfRow(key: string) { ItemRowKey.ParseItemRowKeyParts(key).Some? }

  type ItemTable = seq<(string, Properties)>

  function ItemEntry(env: Env): (string, Json) -> Option<(string, Properties)> {
    (k: string, v: Json) =>
      var key := Trim(k);
      if key == "" || !v.Obj? then None
      else
        var properties := PropertiesOf(env, OfRow(key), v.entries);
        if properties == [] then None else Some((key, properties))
  }

  /** `normalizeItemProperties` */
  function ItemsOf(env: Env, raw: Json): ItemTable {
    Collect(AsRecord(raw), ItemEntry(env))
  }

  method NormalizeItemProperties(env: Env, raw: Json) returns (normalized: ItemTable)
    ensures normalized == ItemsOf(env, raw)
  {
    if !raw.Obj? { return []; }
    normalized := [];
    var e := raw.entries;
    for i := 0 to |e|
      invariant normalized == Collect(e[..i], ItemEntry(env))
    {
      assert e[..i + 1][..i] == e[..i];
      var key := Trim(e[i].0);
      if key == "" || !e[i].1.Obj? { continue; }
      var next := PropertiesOf(env, OfRow(key), e[i].1.entries);
      if next != [] { normalized := Set(normalized, key, next); }
    }
    assert e[..|e|] == e;
  }

  ghost predicate NormalProperties(env: Env, ofRow: bool, e: Properties) {
    forall i :: 0 <= i < |e| ==> Property(env, ofRow, e[i].0, e[i].1) == Some(e[i].1)
  }

  ghost function IsItem(env: Env): (string, Properties) -> bool {
    (k: string, e: Properties) => k != "" && Trimmed(k) && e != [] && NormalProperties(env, OfRow(k), e)
  }

  ghost predicate AreItems(env: Env, t: ItemTable) { Unique(t) && All(t, IsItem(env)) }

  function RawItems(t: ItemTable): Json {
    Obj(seq(|t|, i requires 0 <= i < |t| => (t[i].0, Obj(t[i].1))))
  }

  lemma PropertyKept(env: Env, ofRow: bool, k: string, v: Json)
    requires Property(env, ofRow, k, v).Some?
    ensures Property(env, ofRow, k, Property(env, ofRow, k, v).value) == Property(env, ofRow, k, v)
  {
    if k == "tags" && v.Arr? {
      LabelsShape(env, v.items);
      LabelsKept(env, Labels(env, v));
    } else if k == "previewStart" {
      PreviewStartKept(env, v);
    } else if k == "previewTargetId" {
      TrimFixpoint(v.s);
    }
  }

  /** A property as an editor may set it: tags are labels, a difficulty is a number, a target is not blank and
      an exclusion is set, but for rows of an item, which override with empty values. */
  ghost predicate WellFormed(env: Env, ofRow: bool, k: string, v: Json) {
    && (k == "tags" && v.Arr? ==> exists s :: AreLabels(s) && v == Strings(s))
    && (k == "empiricalDifficulty" ==> v.Num? || v == Undefined || v == Null)
    && (k == "previewStart" ==> PreviewStart(env, v) == Some(v))
    && (k == "previewTargetId" ==> v.Str? && Trimmed(v.s) && (v.s != "" || ofRow))
    && (k == "excluded" ==> v == Bool(true) || (v == Bool(false) && ofRow))
  }

  /** Exactly these are kept as they are. */
  lemma PropertyKeptExactly(env: Env, ofRow: bool, k: string, v: Json)
    ensures Property(env, ofRow, k, v) == Some(v) <==> WellFormed(env, ofRow, k, v)
  {
    if k == "tags" && v.Arr? {
      if Property(env, ofRow, k, v) == Some(v) {
        LabelsShape(env, v.items);
        assert AreLabels(Labels(env, v)) && v == Strings(Labels(env, v));
      }
      if s :| AreLabels(s) && v == Strings(s) { LabelsKept(env, s); }
    } else if k == "previewTargetId" && v.Str? {
      TrimFixpoint(v.s);
      TrimIsTrimmed(v.s);
    }
  }

  ghost predicate Unaltered(norm: (string, Json) -> Option<Json>, e: Properties) {
    forall i :: 0 <= i < |e| ==> norm(e[i].0, e[i].1) == Some(e[i].1)
  }

  lemma {:induction false} RetainedOnce(norm: (string, Json) -> Option<Json>, e: Properties)
    requires forall k, v :: norm(k, v).Some? ==> norm(k, norm(k, v).value) == norm(k, v)
    ensures Unaltered(norm, Retained(norm, e))
  {
    if e != [] {
      var (k, v) := e[|e| - 1];
      RetainedOnce(norm, e[..|e| - 1]);
      if norm(k, v).Some? { assert norm(k, norm(k, v).value) == norm(k, v); }
    }
  }

  lemma {:induction false} RetainedAll(norm: (string, Json) -> Option<Json>, e: Properties)
    requires Unaltered(norm, e)
    ensures Retained(norm, e) == e
  {
    if e != [] {
      var n := |e| - 1;
      RetainedAll(norm, e[..n]);
      assert norm(e[n].0, e[n].1) == Some(e[n].1);
      assert e == e[..n] + [(e[n].0, e[n].1)];
    }
  }

  /** Each property is normalised by itself. */
  lemma {:induction false} LookupRetained(norm: (string, Json) -> Option<Json>, e: Properties, k: string)
    requires Unique(e)
    ensures Unique(Retained(norm, e)) && (Lookup(e, k) == None ==> Lookup(Retained(norm, e), k) == None)
    ensures Lookup(e, k).Some? ==> Lookup(Retained(norm, e), k) == norm(k, Lookup(e, k).value)
  {
    if e != [] {
      var n := |e| - 1;
      var rest, last := Retained(norm, e[..n]), e[n];
      LookupRetained(norm, e[..n], k);
      LookupRetained(norm, e[..n], last.0);
      LookupFinds(e[..n], last.0);
      LookupFinds(rest, last.0);
      LookupOneMore(e[..n], last.0, last.1, k);
      assert e == e[..n] + [(last.0, last.1)];
      match norm(last.0, last.1)
      case None => assert Retained(norm, e) == rest;
      case Some(v) => LookupOneMore(rest, last.0, v, k);
    }
  }

  lemma LookupOneMore<V>(e: seq<(string, V)>, k: string, v: V, x: string)
    requires Unique(e) && Lookup(e, k) == None
    ensures Unique(e + [(k, v)]) && Lookup(e + [(k, v)], x) == if x == k then Some(v) else Lookup(e, x)
  {
    LookupFinds(e, k);
    SetNew(e, k, v);
    SetShape(e, k, v);
    LookupSet(e, k, v, x);
  }

  lemma NormIs(env: Env, ofRow: bool, k: string, v: Json)
    ensures Norm(env, ofRow)(k, v) == Property(env, ofRow, k, v)
  {
  }

  lemma NormTwice(env: Env, ofRow: bool, k: string, v: Json)
    requires Norm(env, ofRow)(k, v).Some?
    ensures Norm(env, ofRow)(k, Norm(env, ofRow)(k, v).value) == Norm(env, ofRow)(k, v)
  {
    NormIs(env, ofRow, k, v);
    PropertyKept(env, ofRow, k, v);
    NormIs(env, ofRow, k, Property(env, ofRow, k, v).value);
  }

  lemma NormalIsUnaltered(env: Env, ofRow: bool, e: Properties)
    ensures NormalProperties(env, ofRow, e) <==> Unaltered(Norm(env, ofRow), e)
  {
    forall i | 0 <= i < |e| ensures Norm(env, ofRow)(e[i].0, e[i].1) == Property(env, ofRow, e[i].0, e[i].1) { NormIs(env, ofRow, e[i].0, e[i].1); }
  }

  lemma PropertiesAreNormal(env: Env, ofRow: bool, e: Properties)
    ensures NormalProperties(env, ofRow, PropertiesOf(env, ofRow, e))
  {
    var norm := Norm(env, ofRow);
    forall k, v | norm(k, v).Some? ensures norm(k, norm(k, v).value) == norm(k, v) { NormTwice(env, ofRow, k, v); }
    RetainedOnce(norm, e);
    NormalIsUnaltered(env, ofRow, PropertiesOf(env, ofRow, e));
  }

  lemma PropertiesKept(env: Env, ofRow: bool, e: Properties)
    requires NormalProperties(env, ofRow, e)
    ensures PropertiesOf(env, ofRow, e) == e
  {
    NormalIsUnaltered(env, ofRow, e);
    RetainedAll(Norm(env, ofRow), e);
  }

  lemma ItemsShape(env: Env, raw: Json)
    ensures AreItems(env, ItemsOf(env, raw))
  {
    var f, p := ItemEntry(env), IsItem(env);
    forall k: string, v: Json | f(k, v).Some? ensures p(f(k, v).value.0, f(k, v).value.1) {
      TrimIsTrimmed(k);
      PropertiesAreNormal(env, OfRow(Trim(k)), v.entries);
    }
    CollectShape(AsRecord(raw), f, p);
  }

  lemma ItemsKept(env: Env, t: ItemTable)
    requires AreItems(env, t)
    ensures ItemsOf(env, RawItems(t)) == t
  {
    var e := RawItems(t).entries;
    forall i | 0 <= i < |e| ensures ItemEntry(env)(e[i].0, e[i].1) == Some(t[i]) {
      assert IsItem(env)(t[i].0, t[i].1);
      TrimFixpoint(t[i].0);
      PropertiesKept(env, OfRow(t[i].0), t[i].1);
    }
    CollectKeeps(e, t, ItemEntry(env));
  }

  // ------------------------------------------------------------------------------- columns

  datatype RawLayout = RawLayout(visible: Json, order: Json, configured: Json, widths: Json, schemaVersion: Json)

  datatype RawColumns = RawColumns(restricted: Json, visible: Json, order: Json, configured: Json, widths: Json,
                                   referenceNumberVisible: Json, layout: RawLayout)

  datatype Layout = Layout(visible: seq<string>, order: seq<string>, configured: bool, widths: WidthTable, schemaVersion: Option<int>)

  datatype Columns = Columns(restricted: bool, visible: seq<string>, order: seq<string>, configured: bool, widths: WidthTable,
                             referenceNumberVisible: bool, layout: Option<Layout>)

  const NO_LAYOUT := RawLayout(Undefined, Undefined, Undefined, Undefined, Undefined)

  function Either(a: seq<string>, b: seq<string>): seq<string> { if a != [] then a else b }

  function SchemaVersion(env: Env, v: Json): Option<int> {
    match Number(env, v)
    case None => None
    case Some(x) => if x == x.Floor as real && x > 0.0 then Some(x.Floor) else None
  }

  /** `normalizeTableColumnLayout` */
  function LayoutOf(env: Env, raw: RawLayout): Option<Layout> {
    var visible, order := Labels(env, raw.visible), Labels(env, raw.order);
    var configured := raw.configured == Bool(true) || visible != [] || order != [];
    var widths := WidthsOf(env, 120, 220, raw.widths);
    if !configured && widths == [] then None
    else Some(Layout(if raw.configured == Bool(true) then visible else Either(visible, order), Either(order, visible),
                     configured, widths, SchemaVersion(env, raw.schemaVersion)))
  }

  function RawLayoutOf(l: Option<Layout>): RawLayout {
    match l
    case None => NO_LAYOUT
    case Some(x) =>
      RawLayout(Strings(x.visible), Strings(x.order), Bool(x.configured), RawWidths(x.widths),
                match x.schemaVersion { case None => Undefined case Some(v) => Num(v as real) })
  }

  ghost predicate IsLayout(l: Layout) {
    && AreLabels(l.visible) && AreLabels(l.order)
    && (l.order == [] ==> l.visible == []) && (l.visible != [] ==> l.configured) && (l.order != [] ==> l.configured)
    && AreWidths(120, 220, l.widths) && (l.configured || l.widths != [])
    && (l.schemaVersion.Some? ==> l.schemaVersion.value > 0)
  }

  /** The columns of a stored state, `normalizeStatePayload`. */
  function ColumnsOf(env: Env, raw: RawColumns): Columns {
    var visible, order := Labels(env, raw.visible), Labels(env, raw.order);
    Columns(raw.restricted == Bool(true), Either(visible, order), Either(order, visible),
            raw.configured == Bool(true) || visible != [] || order != [],
            WidthsOf(env, 100, 200, raw.widths), raw.referenceNumberVisible == Bool(true), LayoutOf(env, raw.layout))
  }

  function RawColumnsOf(c: Columns): RawColumns {
    RawColumns(Bool(c.restricted), Strings(c.visible), Strings(c.order), Bool(c.configured), RawWidths(c.widths),
               Bool(c.referenceNumberVisible), RawLayoutOf(c.layout))
  }

  ghost predicate AreColumns(c: Columns) {
    && AreLabels(c.visible) && AreLabels(c.order)
    && (c.visible == [] <==> c.order == []) && (c.visible != [] ==> c.configured)
    && AreWidths(100, 200, c.widths)
    && (c.layout.Some? ==> IsLayout(c.layout.value))
  }

  /** No name of a column width ends in white space. */
  ghost predicate TrimmedColumns(c: Columns) {
    TrimmedNames(c.widths) && (c.layout.Some? ==> TrimmedNames(c.layout.value.widths))
  }

  lemma JsonLabels(env: Env, v: Json)
    ensures AreLabels(Labels(env, v))
  {
    if v.Arr? { LabelsShape(env, v.items); }
  }

  lemma LayoutShape(env: Env, raw: RawLayout)
    ensures LayoutOf(env, raw).Some? ==> IsLayout(LayoutOf(env, raw).value)
  {
    JsonLabels(env, raw.visible);
    JsonLabels(env, raw.order);
    WidthsShape(env, 120, 220, raw.widths);
  }

  lemma ColumnsShape(env: Env, raw: RawColumns)
    ensures AreColumns(ColumnsOf(env, raw))
  {
    JsonLabels(env, raw.visible);
    JsonLabels(env, raw.order);
    WidthsShape(env, 100, 200, raw.widths);
    LayoutShape(env, raw.layout);
  }

  lemma SchemaVersionKept(env: Env, v: int)
    requires v > 0
    ensures SchemaVersion(env, Num(v as real)) == Some(v)
  {
    assert (v as real).Floor == v;
  }

  /** Everything but the widths comes out as it was. */
  lemma LayoutOnceMore(env: Env, l: Layout)
    requires IsLayout(l)
    ensures LayoutOf(env, RawLayoutOf(Some(l))) == Some(l.(widths := WidthsOf(env, 120, 220, RawWidths(l.widths))))
  {
    LabelsKept(env, l.visible);
    LabelsKept(env, l.order);
    if l.schemaVersion.Some? { SchemaVersionKept(env, l.schemaVersion.value); }
    if l.widths != [] { WidthsRemain(env, 120, 220, l.widths); }
  }

  lemma WidthsRemain(env: Env, count: nat, length: nat, w: WidthTable)
    requires AreWidths(count, length, w) && w != []
    ensures WidthsOf(env, count, length, RawWidths(w)) != []
  {
    var e := RawWidths(w).entries;
    var n := |e| - 1;
    assert IsWidth(length)(w[n].0, w[n].1);
    KeepsLetter(w[n].0);
    SetShape(Collect(e[..n], WidthEntry(env, length)), Take(Trim(e[n].0), length), Clamp(w[n].1 as real));
  }

  lemma {:induction false} KeepsLetter(s: string)
    requires s != [] && !IsSpace(s[0])
    ensures Trim(s) != ""
  {
    KeepsFirst(s);
  }

  lemma {:induction false} KeepsFirst(s: string)
    requires s != [] && !IsSpace(s[0])
    ensures TrimEnd(s) != ""
  {
    if IsSpace(s[|s| - 1]) { KeepsFirst(s[..|s| - 1]); }
  }

  /** Columns put together from parts that come out as they were. */
  lemma ColumnsFromParts(env: Env, raw: RawColumns, c: Columns, layout: Option<Layout>)
    requires Labels(env, raw.visible) == c.visible && Labels(env, raw.order) == c.order && LayoutOf(env, raw.layout) == layout
    requires raw.restricted == Bool(c.restricted) && raw.configured == Bool(c.configured)
    requires raw.referenceNumberVisible == Bool(c.referenceNumberVisible)
    requires (c.visible == [] <==> c.order == []) && (c.visible != [] ==> c.configured)
    ensures ColumnsOf(env, raw) == c.(widths := WidthsOf(env, 100, 200, raw.widths), layout := layout)
  {
  }

  lemma NoLayout(env: Env)
    ensures LayoutOf(env, RawLayoutOf(None)) == None
  {
  }

  lemma ColumnsOnceMore(env: Env, c: Columns)
    requires AreColumns(c)
    ensures ColumnsOf(env, RawColumnsOf(c)) == c.(
      widths := WidthsOf(env, 100, 200, RawWidths(c.widths)),
      layout := if c.layout == None then None else Some(c.layout.value.(widths := WidthsOf(env, 120, 220, RawWidths(c.layout.value.widths)))))
  {
    LabelsKept(env, c.visible);
    LabelsKept(env, c.order);
    if c.layout.Some? { LayoutOnceMore(env, c.layout.value); } else { NoLayout(env); }
    ColumnsFromParts(env, RawColumnsOf(c), c,
                     if c.layout == None then None else Some(c.layout.value.(widths := WidthsOf(env, 120, 220, RawWidths(c.layout.value.widths)))));
  }

  lemma TrimmedColumnsAreKept(env: Env, c: Columns)
    requires AreColumns(c)
    ensures ColumnsOf(env, RawColumnsOf(c)) == c <==> TrimmedColumns(c)
    ensures TrimmedColumns(ColumnsOf(env, RawColumnsOf(c)))
  {
    ColumnsOnceMore(env, c);
    TrimmedWidthsAreKept(env, 100, 200, c.widths);
    ShortNamesAreTrimmed(env, 100, 200, c.widths);
    if c.layout.Some? {
      TrimmedWidthsAreKept(env, 120, 220, c.layout.value.widths);
      ShortNamesAreTrimmed(env, 120, 220, c.layout.value.widths);
    }
  }

  predicate CleanColumns(env: Env, raw: RawColumns) {
    CleanWidths(env, 100, 200, raw.widths) && CleanWidths(env, 120, 220, raw.layout.widths)
  }

  lemma ColumnsTrimmedExactlyIfClean(env: Env, raw: RawColumns)
    ensures TrimmedColumns(ColumnsOf(env, raw)) <==> CleanColumns(env, raw)
  {
    TrimmedExactlyIfClean(env, 100, 200, raw.widths);
    TrimmedExactlyIfClean(env, 120, 220, raw.layout.widths);
    assert LayoutOf(env, raw.layout) == None ==> WidthsOf(env, 120, 220, raw.layout.widths) == [];
  }

  /** The same for all settings of the columns, the table layout included. */
  lemma ColumnsFixpointExactly(env: Env, raw: RawColumns)
    ensures ColumnsOf(env, RawColumnsOf(ColumnsOf(env, raw))) == ColumnsOf(env, raw) <==> CleanColumns(env, raw)
  {
    ColumnsShape(env, raw);
    TrimmedColumnsAreKept(env, ColumnsOf(env, raw));
    ColumnsTrimmedExactlyIfClean(env, raw);
  }

  // ------------------------------------------------------------------------------- payloads

  datatype RawPayload = RawPayload(ui: Json, tags: Json, columns: RawColumns, itemOrder: Json, itemProperties: Json)

  datatype Payload = Payload(ui: Properties, tags: Tags, columns: Columns, itemOrder: seq<string>, itemProperties: ItemTable)

  /** `normalizeStatePayload` */
  function PayloadOf(env: Env, raw: RawPayload): Payload {
    Payload(AsRecord(raw.ui), TagsOf(env, raw.tags), ColumnsOf(env, raw.columns), Labels(env, raw.itemOrder), ItemsOf(env, raw.itemProperties))
  }

  /** A payload as it is stored. */
  function Stored(p: Payload): RawPayload {
    RawPayload(Obj(p.ui), RawTags(p.tags), RawColumnsOf(p.columns), Strings(p.itemOrder), RawItems(p.itemProperties))
  }

  ghost predicate Tidy(env: Env, p: Payload) {
    AreTags(p.tags) && AreColumns(p.columns) && AreLabels(p.itemOrder) && AreItems(env, p.itemProperties)
  }

  /** Reads a stored payload. */
  function Normalized(env: Env, p: Payload): Payload { PayloadOf(env, Stored(p)) }

  lemma NormalizingTidies(env: Env, raw: RawPayload)
    ensures Tidy(env, PayloadOf(env, raw))
  {
    TagsShape(env, raw.tags);
    ColumnsShape(env, raw.columns);
    JsonLabels(env, raw.itemOrder);
    ItemsShape(env, raw.itemProperties);
  }

  lemma NormalizedParts(env: Env, p: Payload)
    requires Tidy(env, p)
    ensures Normalized(env, p) == p.(columns := ColumnsOf(env, RawColumnsOf(p.columns)))
  {
    TagsKept(env, p.tags);
    LabelsKept(env, p.itemOrder);
    ItemsKept(env, p.itemProperties);
  }

  lemma SettlesTheSecondTime(env: Env, p: Payload)
    requires Tidy(env, p)
    ensures Normalized(env, p) == p <==> TrimmedColumns(p.columns)
    ensures Tidy(env, Normalized(env, p)) && Normalized(env, Normalized(env, p)) == Normalized(env, p)
  {
    var q := Normalized(env, p);
    NormalizedParts(env, p);
    TrimmedColumnsAreKept(env, p.columns);
    NormalizingTidies(env, Stored(p));
    NormalizedParts(env, q);
    TrimmedColumnsAreKept(env, q.columns);
  }

  /** Normalising a state a second time changes nothing exactly if no name of a column width was
      cut right behind white space; a third time never changes anything. */
  lemma NormalizedFixpointExactly(env: Env, raw: RawPayload)
    ensures var p := PayloadOf(env, raw);
      && (Normalized(env, p) == p <==> CleanColumns(env, raw.columns))
      && Normalized(env, Normalized(env, p)) == Normalized(env, p)
  {
    NormalizingTidies(env, raw);
    SettlesTheSecondTime(env, PayloadOf(env, raw));
    ColumnsTrimmedExactlyIfClean(env, raw.columns);
  }

  /** A name of 199 letters, a space and one more letter. */
  function LongName(): string { seq(199, _ => 'a') + " a" }

  function OneWidth(): RawColumns {
    RawColumns(Undefined, Undefined, Undefined, Undefined, Obj([(LongName(), Num(100.0))]), Undefined, NO_LAYOUT)
  }

  /** That is the name of a column width which the second normalisation cuts shorter than the first. */
  lemma SecondTimeCanDiffer(env: Env, raw: RawPayload)
    requires raw.columns == OneWidth()
    ensures Normalized(env, PayloadOf(env, raw)) != PayloadOf(env, raw)
  {
    var name := LongName();
    assert |name| == 201 && name[199] == ' ' && !IsSpace(name[0]) && !IsSpace(name[200]);
    TrimFixpoint(name);
    var e := Take(AsRecord(raw.columns.widths), 100);
    assert e[0] == (name, Num(100.0));
    assert CutAtSpace(200, e[0].0);
    NormalizedFixpointExactly(env, raw);
  }
}
