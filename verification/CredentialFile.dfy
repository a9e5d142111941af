/** backend/src/acp/credential-file.ts: the list of user names and passwords that a manager
    uploads, from decoded text on. Quoting follows section 2 of RFC 4180, with any of three
    separators. */
module CredentialFile {
  import opened Outcomes
  import opened Text

  datatype Complaint =
    | UnclosedQuote | BadQuoting
    | NotTwoColumns | NoUsername | NoPassword | WeakPassword | Repeated(previous: nat)
    | NoEntries

  datatype Failure = Failure(line: nat, complaint: Complaint)

  datatype Record = Record(line: nat, fields: seq<string>)

  // ------------------------------------------------------------------------ line endings

  function StripByteOrderMark(s: string): string {
    if s != [] && s[0] == '\U{FEFF}' then s[1..] else s
  }

  /** CR LF and CR become LF. */
  function NormalizeNewlines(s: string): string
    decreases |s|
  {
    if s == [] then []
    else if s[0] == '\r' then
      ['\n'] + NormalizeNewlines(if |s| > 1 && s[1] == '\n' then s[2..] else s[1..])
    else [s[0]] + NormalizeNewlines(s[1..])
  }

  lemma {:induction false} NothingToNormalize(s: string)
    requires '\r' !in s
    ensures NormalizeNewlines(s) == s
  {
    if s != [] {
      assert s[0] in s;
      NothingToNormalize(s[1..]);
    }
  }

  function Newlines(s: string): nat {
    if s == [] then 0 else Newlines(s[..|s| - 1]) + if s[|s| - 1] == '\n' then 1 else 0
  }

  lemma {:induction false} NewlinesConcat(a: string, b: string)
    ensures Newlines(a + b) == Newlines(a) + Newlines(b)
  {
    if b == [] {
      assert a + b == a;
    } else {
      assert (a + b)[..|a + b| - 1] == a + b[..|b| - 1];
      NewlinesConcat(a, b[..|b| - 1]);
    }
  }

  // --------------------------------------------------------------------------- the scanner

  /** The variables of the scanning loop. */
  datatype Scan = Scan(i: nat, rows: seq<Record>, fields: seq<string>, field: string, line: nat, startLine: nat,
                       quoted: bool, afterQuote: bool, recordPresent: bool)

  const START := Scan(0, [], [], "", 1, 1, false, false, false)

  /** The end of the text ends a record as a newline does. */
  function CharAt(text: string, i: nat): char {
    if i < |text| then text[i] else '\n'
  }

  predicate QuoteAt(text: string, i: nat) { i < |text| && text[i] == '"' }

  /** One iteration. */
  function Next(text: string, separator: char, s: Scan): Result<Scan, Failure>
    requires s.i <= |text|
  {
    var c := CharAt(text, s.i);
    var present := s.recordPresent || c != '\n';
    if s.quoted then
      if s.i == |text| then Err(Failure(s.line, UnclosedQuote))
      else if c == '"' then
        if QuoteAt(text, s.i + 1) then Ok(s.(i := s.i + 2, field := s.field + "\"", recordPresent := present))
        else Ok(s.(i := s.i + 1, quoted := false, afterQuote := true, recordPresent := present))
      else
        Ok(s.(i := s.i + 1, field := s.field + [c], line := if c == '\n' then s.line + 1 else s.line, recordPresent := present))
    else if c == '\n' then
      Ok(Scan(s.i + 1, if present then s.rows + [Record(s.startLine, s.fields + [s.field])] else s.rows,
              [], "", s.line + 1, s.line + 1, false, false, false))
    else if c == separator then
      Ok(s.(i := s.i + 1, fields := s.fields + [s.field], field := "", afterQuote := false, recordPresent := present))
    else if c == '"' && s.field == "" && !s.afterQuote then
      Ok(s.(i := s.i + 1, quoted := true, recordPresent := present))
    else if s.afterQuote || c == '"' then Err(Failure(s.line, BadQuoting))
    else Ok(s.(i := s.i + 1, field := s.field + [c], recordPresent := present))
  }

  function ScanFrom(text: string, separator: char, s: Scan): Result<seq<Record>, Failure>
    decreases |text| + 1 - s.i
  {
    if s.i > |text| then Ok(s.rows)
    else
      match Next(text, separator, s)
      case Err(e) => Err(e)
      case Ok(s') => ScanFrom(text, separator, s')
  }

  method ScanRecords(text: string, separator: char) returns (r: Result<seq<Record>, Failure>)
    ensures r == ScanFrom(text, separator, START)
  {
    var rows, fields, field, line, startLine := [], [], "", 1, 1;
    var quoted, afterQuote, recordPresent := false, false, false;
    var i := 0;
    while i <= |text|
      invariant ScanFrom(text, separator, START)
             == ScanFrom(text, separator, Scan(i, rows, fields, field, line, startLine, quoted, afterQuote, recordPresent))
      decreases |text| + 1 - i
    {
      var c := if i == |text| then '\n' else text[i];
      if c != '\n' { recordPresent := true; }
      if quoted {
        if i == |text| { return Err(Failure(line, UnclosedQuote)); }
        if c == '"' {
          if i + 1 < |text| && text[i + 1] == '"' {
            field := field + "\"";
            i := i + 1;
          } else {
            quoted, afterQuote := false, true;
          }
        } else {
          field := field + [c];
          if c == '\n' { line := line + 1; }
        }
      } else if c == separator || c == '\n' {
        fields := fields + [field];
        field, afterQuote := "", false;
        if c == '\n' {
          if recordPresent { rows := rows + [Record(startLine, fields)]; }
          fields, recordPresent := [], false;
          line := line + 1;
          startLine := line;
        }
      } else if c == '"' && field == "" && !afterQuote {
        quoted := true;
      } else {
        if afterQuote || c == '"' { return Err(Failure(line, BadQuoting)); }
        field := field + [c];
      }
      i := i + 1;
    }
    return Ok(rows);
  }

  // -------------------------------------------------------------------------- line numbers

  /** The fields of the record that is being read at position `i`, lines left aside. */
  function RecordAt(text: string, separator: char, i: nat, fields: seq<string>, field: string, quoted: bool, afterQuote: bool): seq<string>
    decreases |text| + 1 - i
  {
    if i > |text| then []
    else if !quoted && CharAt(text, i) == '\n' then fields + [field]
    else
      match Next(text, separator, Scan(i, [], fields, field, 1, 1, quoted, afterQuote, false))
      case Err(e) => []
      case Ok(s) => RecordAt(text, separator, s.i, s.fields, s.field, s.quoted, s.afterQuote)
  }

  /** A record that begins at position `start` of the text. */
  ghost predicate BeginsAt(text: string, separator: char, record: Record, start: nat) {
    && start < |text| && text[start] != '\n'
    && (start == 0 || text[start - 1] == '\n')
    && record.fields == RecordAt(text, separator, start, [], "", false, false)
    && record.line == 1 + Newlines(text[..start])
  }

  /** The records begin at `starts`, one after the other, below `limit`. */
  ghost predicate RightLines(text: string, separator: char, rows: seq<Record>, starts: seq<nat>, limit: nat) {
    && |starts| == |rows|
    && (forall k :: 0 <= k < |rows| ==> starts[k] < limit && BeginsAt(text, separator, rows[k], starts[k]))
    && (forall k, l :: 0 <= k < l < |rows| ==> starts[k] < starts[l])
  }

  /** `start`: where the record being scanned begins. */
  ghost predicate Located(text: string, separator: char, s: Scan, start: nat) {
    && start <= s.i <= |text| + 1
    && (s.recordPresent <==> start < s.i)
    && (s.recordPresent ==> start < |text| && text[start] != '\n')
    && (s.quoted ==> s.recordPresent)
    && (0 < start <= |text| ==> text[start - 1] == '\n')
    && (start <= |text| ==> s.startLine == 1 + Newlines(text[..start]))
    && (s.i <= |text| ==> s.line == 1 + Newlines(text[..s.i]))
    && RecordAt(text, separator, start, [], "", false, false) == RecordAt(text, separator, s.i, s.fields, s.field, s.quoted, s.afterQuote)
  }

  lemma OneMore(text: string, i: nat)
    requires i < |text|
    ensures Newlines(text[..i + 1]) == Newlines(text[..i]) + if text[i] == '\n' then 1 else 0
  {
    assert text[..i + 1][..i] == text[..i];
  }

  lemma InsideAQuotedText(text: string, separator: char, s: Scan, start: nat)
    requires s.i <= |text| && Next(text, separator, s).Ok? && separator != '\n'
    requires Located(text, separator, s, start) && s.quoted
    ensures Located(text, separator, Next(text, separator, s).value, start)
  {
    OneMore(text, s.i);
    if text[s.i] == '"' && QuoteAt(text, s.i + 1) { OneMore(text, s.i + 1); }
  }

  lemma OutsideAQuotedText(text: string, separator: char, s: Scan, start: nat)
    requires s.i <= |text| && Next(text, separator, s).Ok? && separator != '\n'
    requires Located(text, separator, s, start) && !s.quoted && CharAt(text, s.i) != '\n'
    ensures Located(text, separator, Next(text, separator, s).value, start)
  {
    OneMore(text, s.i);
  }

  lemma InsideARecord(text: string, separator: char, s: Scan, start: nat)
    requires s.i <= |text| && Next(text, separator, s).Ok? && separator != '\n'
    requires Located(text, separator, s, start) && (s.quoted || CharAt(text, s.i) != '\n')
    ensures Located(text, separator, Next(text, separator, s).value, start)
    ensures Next(text, separator, s).value.rows == s.rows
  {
    if s.quoted {
      InsideAQuotedText(text, separator, s, start);
    } else {
      OutsideAQuotedText(text, separator, s, start);
    }
  }

  lemma AfterARecord(text: string, separator: char, s: Scan, start: nat)
    requires s.i <= |text| && !s.quoted && CharAt(text, s.i) == '\n'
    requires Located(text, separator, s, start)
    ensures Located(text, separator, Next(text, separator, s).value, s.i + 1)
  {
    if s.i < |text| { OneMore(text, s.i); }
  }

  lemma RecordReported(text: string, separator: char, s: Scan, start: nat)
    requires s.i <= |text| && !s.quoted && CharAt(text, s.i) == '\n' && s.recordPresent
    requires Located(text, separator, s, start)
    ensures BeginsAt(text, separator, Record(s.startLine, s.fields + [s.field]), start)
  {
  }

  lemma OneMoreRecord(text: string, separator: char, rows: seq<Record>, starts: seq<nat>, record: Record, start: nat)
    requires RightLines(text, separator, rows, starts, start) && BeginsAt(text, separator, record, start)
    ensures RightLines(text, separator, rows + [record], starts + [start], start + 1)
  {
    forall k | 0 <= k < |rows + [record]|
      ensures (starts + [start])[k] < start + 1 && BeginsAt(text, separator, (rows + [record])[k], (starts + [start])[k])
    {
      if k < |rows| { assert BeginsAt(text, separator, rows[k], starts[k]); }
    }
  }

  lemma EndOfRecord(text: string, separator: char, s: Scan, start: nat, starts: seq<nat>) returns (starts': seq<nat>)
    requires s.i <= |text| && !s.quoted && CharAt(text, s.i) == '\n'
    requires Located(text, separator, s, start) && RightLines(text, separator, s.rows, starts, start)
    ensures RightLines(text, separator, Next(text, separator, s).value.rows, starts', s.i + 1)
  {
    if s.recordPresent {
      var record := Record(s.startLine, s.fields + [s.field]);
      RecordReported(text, separator, s, start);
      OneMoreRecord(text, separator, s.rows, starts, record, start);
      starts' := starts + [start];
    } else {
      starts' := starts;
    }
  }

  lemma {:induction false} ScanKeepsLines(text: string, separator: char, s: Scan, start: nat, starts: seq<nat>) returns (starts': seq<nat>)
    requires ScanFrom(text, separator, s).Ok? && separator != '\n'
    requires Located(text, separator, s, start) && RightLines(text, separator, s.rows, starts, start)
    ensures RightLines(text, separator, ScanFrom(text, separator, s).value, starts', |text| + 1)
    decreases |text| + 1 - s.i
  {
    if s.i > |text| {
      starts' := starts;
    } else {
      var s' := Next(text, separator, s).value;
      if !s.quoted && CharAt(text, s.i) == '\n' {
        var starts1 := EndOfRecord(text, separator, s, start, starts);
        AfterARecord(text, separator, s, start);
        starts' := ScanKeepsLines(text, separator, s', s.i + 1, starts1);
      } else {
        InsideARecord(text, separator, s, start);
        starts' := ScanKeepsLines(text, separator, s', start, starts);
      }
    }
  }

  /** In every file that scans, each record carries 1 plus the number of newlines before its
      first character, quoted newlines included. */
  lemma RecordsCarryTheirLine(text: string, separator: char) returns (starts: seq<nat>)
    requires ScanFrom(text, separator, START).Ok? && separator != '\n'
    ensures RightLines(text, separator, ScanFrom(text, separator, START).value, starts, |text| + 1)
  {
    assert text[..0] == [];
    starts := ScanKeepsLines(text, separator, START, 0, []);
  }

  // ------------------------------------------------------------------- the separator

  datatype Counts = Counts(comma: nat, semicolon: nat, tab: nat) {
    function Count(c: char): Counts {
      if c == ',' then this.(comma := comma + 1)
      else if c == ';' then this.(semicolon := semicolon + 1)
      else if c == '\t' then this.(tab := tab + 1)
      else this
    }

    /** The most frequent one; among equals the one that comes first in this order. */
    function Best(): char {
      if comma >= semicolon && comma >= tab then ',' else if semicolon >= tab then ';' else '\t'
    }
  }

  predicate IsSeparator(c: char) { c == ',' || c == ';' || c == '\t' }

  function FirstNonNewline(text: string, i: nat): nat
    decreases |text| - i
  {
    if i < |text| && text[i] == '\n' then FirstNonNewline(text, i + 1) else i
  }

  /** The separators outside quotes up to the first newline outside quotes. */
  function Tally(text: string, i: nat, quoted: bool, counts: Counts): Counts
    decreases |text| - i
  {
    if i >= |text| then counts
    else if text[i] == '"' then
      if quoted && QuoteAt(text, i + 1) then Tally(text, i + 2, quoted, counts) else Tally(text, i + 1, !quoted, counts)
    else if quoted then Tally(text, i + 1, quoted, counts)
    else if text[i] == '\n' then counts
    else Tally(text, i + 1, quoted, counts.Count(text[i]))
  }

  function Separator(text: string): char {
    Tally(text, FirstNonNewline(text, 0), false, Counts(0, 0, 0)).Best()
  }

  method DetectSeparator(text: string) returns (separator: char)
    ensures separator == Separator(text) && IsSeparator(separator)
  {
    var firstRecordStart := 0;
    while firstRecordStart < |text| && text[firstRecordStart] == '\n'
      invariant FirstNonNewline(text, 0) == FirstNonNewline(text, firstRecordStart)
    {
      firstRecordStart := firstRecordStart + 1;
    }
    var quoted, counts := false, Counts(0, 0, 0);
    var i := firstRecordStart;
    while i < |text|
      invariant Tally(text, firstRecordStart, false, Counts(0, 0, 0)) == Tally(text, i, quoted, counts)
      decreases |text| - i
    {
      var c := text[i];
      if c == '"' {
        if quoted && QuoteAt(text, i + 1) { i := i + 1; } else { quoted := !quoted; }
      }
      if !quoted && c == '\n' { break; }
      if !quoted { counts := counts.Count(c); }
      i := i + 1;
    }
    return counts.Best();
  }

  // ---------------------------------------------------------------------- the header

  /** `toLowerCase` as far as comparing with an ASCII word can tell: apart from the capital
      letters only the Kelvin sign becomes an ASCII letter. */
  function LowerChar(c: char): char {
    if 'A' <= c <= 'Z' then c + 32 as char else if c == '\U{212A}' then 'k' else c
  }

  function Lower(s: string): string { seq(|s|, i requires 0 <= i < |s| => LowerChar(s[i])) }

  predicate UserHeader(f: string) { f == "username" || f == "user" || f == "benutzername" || f == "nutzername" }

  predicate PasswordHeader(f: string) { f == "password" || f == "passwort" || f == "kennwort" }

  datatype Header = NoHeader | UserFirst | PasswordFirst

  function HeaderOf(rows: seq<Record>): Header {
    if rows != [] && |rows[0].fields| == 2 then
      var first, second := Lower(Trim(rows[0].fields[0])), Lower(Trim(rows[0].fields[1]));
      if UserHeader(first) && PasswordHeader(second) then UserFirst
      else if PasswordHeader(first) && UserHeader(second) then PasswordFirst
      else NoHeader
    else NoHeader
  }

  // -------------------------------------------------------------------- the entries

  datatype Credential = Credential(username: string, password: string)

  /** The length in UTF-16 code units. */
  function Units(s: string): nat {
    if s == [] then 0 else Units(s[1..]) + if s[0] >= '\U{10000}' then 2 else 1
  }

  predicate IsLower(c: char) { 'a' <= c <= 'z' }

  predicate IsUpper(c: char) { 'A' <= c <= 'Z' }

  predicate Other(c: char) { !IsLower(c) && !IsUpper(c) && !IsDigit(c) }

  predicate StrongPassword(p: string) {
    && Units(p) >= 12
    && (exists i :: 0 <= i < |p| && IsLower(p[i]))
    && (exists i :: 0 <= i < |p| && IsUpper(p[i]))
    && (exists i :: 0 <= i < |p| && IsDigit(p[i]))
    && (exists i :: 0 <= i < |p| && Other(p[i]))
  }

  function Field(fields: seq<string>, column: nat): string {
    if column < |fields| then fields[column] else ""
  }

  function EntryOf(row: Record, header: Header): Credential {
    Credential(Trim(Field(row.fields, if header.PasswordFirst? then 1 else 0)), Field(row.fields, if header.PasswordFirst? then 0 else 1))
  }

  /** The line of the last of the rows with this user name. */
  function Seen(rows: seq<Record>, header: Header, username: string): Option<nat> {
    if rows == [] then None
    else if EntryOf(rows[|rows| - 1], header).username == username then Some(rows[|rows| - 1].line)
    else Seen(rows[..|rows| - 1], header, username)
  }

  function RowErrors(row: Record, header: Header, seen: Option<nat>): seq<Failure> {
    var entry := EntryOf(row, header);
    (if |row.fields| != 2 then [Failure(row.line, NotTwoColumns)] else [])
    + (if entry.username == "" then [Failure(row.line, NoUsername)] else [])
    + (if entry.password == "" then [Failure(row.line, NoPassword)]
       else if !StrongPassword(entry.password) then [Failure(row.line, WeakPassword)]
       else [])
    + (match seen
       case Some(line) => [Failure(row.line, Repeated(line))]
       case None => [])
  }

  function Errors(rows: seq<Record>, header: Header): seq<Failure> {
    if rows == [] then []
    else
      var row := rows[|rows| - 1];
      Errors(rows[..|rows| - 1], header) + RowErrors(row, header, Seen(rows[..|rows| - 1], header, EntryOf(row, header).username))
  }

  function Entries(rows: seq<Record>, header: Header): seq<Credential> {
    seq(|rows|, i requires 0 <= i < |rows| => EntryOf(rows[i], header))
  }

  /** `seen` holds, for each user name of the rows, the line of its last row. */
  ghost predicate SeenMap(seen: map<string, nat>, rows: seq<Record>, header: Header) {
    forall u :: Get(seen, u) == Seen(rows, header, u)
  }

  lemma SeenOneMore(seen: map<string, nat>, rows: seq<Record>, header: Header, row: Record)
    requires SeenMap(seen, rows, header)
    ensures SeenMap(seen[EntryOf(row, header).username := row.line], rows + [row], header)
  {
    assert (rows + [row])[..|rows|] == rows;
    forall u ensures Get(seen[EntryOf(row, header).username := row.line], u) == Seen(rows + [row], header, u) {
      assert Get(seen, u) == Seen(rows, header, u);
    }
  }

  lemma ReadOneMore(rows: seq<Record>, i: nat, header: Header, seen: map<string, nat>)
    requires i < |rows| && SeenMap(seen, rows[..i], header)
    ensures Entries(rows[..i + 1], header) == Entries(rows[..i], header) + [EntryOf(rows[i], header)]
    ensures Errors(rows[..i + 1], header)
         == Errors(rows[..i], header) + RowErrors(rows[i], header, Get(seen, EntryOf(rows[i], header).username))
    ensures SeenMap(seen[EntryOf(rows[i], header).username := rows[i].line], rows[..i + 1], header)
  {
    assert rows[..i + 1] == rows[..i] + [rows[i]] && rows[..i + 1][..i] == rows[..i];
    assert Get(seen, EntryOf(rows[i], header).username) == Seen(rows[..i], header, EntryOf(rows[i], header).username);
    SeenOneMore(seen, rows[..i], header, rows[i]);
  }

  method ReadEntries(rows: seq<Record>, header: Header) returns (result: seq<Credential>, errors: seq<Failure>)
    ensures result == Entries(rows, header) && errors == Errors(rows, header)
  {
    var seen: map<string, nat> := map[];
    result, errors := [], [];
    for i := 0 to |rows|
      invariant result == Entries(rows[..i], header) && errors == Errors(rows[..i], header)
      invariant SeenMap(seen, rows[..i], header)
    {
      var row := rows[i];
      var entry := EntryOf(row, header);
      ReadOneMore(rows, i, header, seen);
      errors := errors + RowErrors(row, header, Get(seen, entry.username));
      seen := seen[entry.username := row.line];
      result := result + [entry];
    }
    assert rows[..|rows|] == rows;
  }

  // ------------------------------------------------------------------ the whole file

  function BodyRows(rows: seq<Record>): seq<Record> {
    if HeaderOf(rows) != NoHeader then rows[1..] else rows
  }

  /** From the records on. */
  function Checked(rows: seq<Record>): Result<seq<Credential>, seq<Failure>> {
    var body, header := BodyRows(rows), HeaderOf(rows);
    if body == [] then Err([Failure(1, NoEntries)])
    else if Errors(body, header) != [] then Err(Errors(body, header))
    else Ok(Entries(body, header))
  }

  function Parsed(decoded: string): Result<seq<Credential>, seq<Failure>> {
    var text := NormalizeNewlines(StripByteOrderMark(decoded));
    match ScanFrom(text, Separator(text), START)
    case Err(e) => Err([e])
    case Ok(rows) => Checked(rows)
  }

  method CheckRecords(all: seq<Record>) returns (r: Result<seq<Credential>, seq<Failure>>)
    ensures r == Checked(all)
  {
    var header, rows := HeaderOf(all), all;
    if header != NoHeader { rows := rows[1..]; }
    var result, errors := ReadEntries(rows, header);
    if result == [] {
      errors := errors + [Failure(1, NoEntries)];
      assert errors == [Failure(1, NoEntries)];
    }
    if errors != [] { return Err(errors); }
    return Ok(result);
  }

  method ParseCredentialFile(decoded: string) returns (r: Result<seq<Credential>, seq<Failure>>)
    ensures r == Parsed(decoded)
  {
    var text := NormalizeNewlines(StripByteOrderMark(decoded));
    var separator := DetectSeparator(text);
    var scanned := ScanRecords(text, separator);
    match scanned
    case Err(e) => return Err([e]);
    case Ok(rows) => r := CheckRecords(rows);
  }

  // ------------------------------------------------------------- what is accepted

  predicate ValidEntry(e: Credential) {
    e.username != "" && Trimmed(e.username) && StrongPassword(e.password)
  }

  predicate ValidList(entries: seq<Credential>) {
    && entries != []
    && (forall i :: 0 <= i < |entries| ==> ValidEntry(entries[i]))
    && (forall i, j :: 0 <= i < j < |entries| ==> entries[i].username != entries[j].username)
  }

  lemma {:induction false} UnseenIsNew(rows: seq<Record>, header: Header, username: string)
    ensures Seen(rows, header, username) == None <==> forall i :: 0 <= i < |rows| ==> EntryOf(rows[i], header).username != username
  {
    if rows != [] {
      UnseenIsNew(rows[..|rows| - 1], header, username);
      assert forall i :: 0 <= i < |rows| - 1 ==> rows[i] == rows[..|rows| - 1][i];
    }
  }

  predicate CleanRow(row: Record, header: Header) {
    |row.fields| == 2 && EntryOf(row, header).username != "" && StrongPassword(EntryOf(row, header).password)
  }

  /** A list without errors: two columns each, a user name, a strong password, no repetition. */
  ghost predicate Clean(rows: seq<Record>, header: Header) {
    && (forall i :: 0 <= i < |rows| ==> CleanRow(rows[i], header))
    && (forall i, j :: 0 <= i < j < |rows| ==> EntryOf(rows[i], header).username != EntryOf(rows[j], header).username)
  }

  lemma RowErrorsExactly(row: Record, header: Header, seen: Option<nat>)
    ensures RowErrors(row, header, seen) == [] <==> CleanRow(row, header) && seen == None
  {
  }

  lemma CleanOneMore(rest: seq<Record>, row: Record, header: Header)
    ensures Clean(rest + [row], header) <==>
      Clean(rest, header) && CleanRow(row, header) && forall i :: 0 <= i < |rest| ==> EntryOf(rest[i], header).username != EntryOf(row, header).username
  {
    var rows := rest + [row];
    assert forall i :: 0 <= i < |rest| ==> rest[i] == rows[i];
    if Clean(rows, header) {
      assert CleanRow(rows[|rest|], header);
      forall i | 0 <= i < |rest| ensures EntryOf(rest[i], header).username != EntryOf(row, header).username {
        assert EntryOf(rows[i], header).username != EntryOf(rows[|rest|], header).username;
      }
    }
  }

  lemma {:induction false} NoErrorsExactly(rows: seq<Record>, header: Header)
    ensures Errors(rows, header) == [] <==> Clean(rows, header)
  {
    if rows != [] {
      var rest, row := rows[..|rows| - 1], rows[|rows| - 1];
      var seen := Seen(rest, header, EntryOf(row, header).username);
      NoErrorsExactly(rest, header);
      UnseenIsNew(rest, header, EntryOf(row, header).username);
      RowErrorsExactly(row, header, seen);
      CleanOneMore(rest, row, header);
      assert rows == rest + [row];
      assert Errors(rows, header) == Errors(rest, header) + RowErrors(row, header, seen);
    }
  }

  /** Every accepted file yields a valid list. */
  lemma AcceptedListsAreValid(decoded: string)
    requires Parsed(decoded).Ok?
    ensures ValidList(Parsed(decoded).value)
  {
    var text := NormalizeNewlines(StripByteOrderMark(decoded));
    var rows := ScanFrom(text, Separator(text), START).value;
    var body, header := BodyRows(rows), HeaderOf(rows);
    NoErrorsExactly(body, header);
    forall i | 0 <= i < |body| ensures Trimmed(EntryOf(body[i], header).username) {
      TrimIsTrimmed(Field(body[i].fields, if header.PasswordFirst? then 1 else 0));
    }
  }

  // ------------------------------------------------------------------------- printing

  /** Quotes are doubled. */
  function Escaped(f: string): string {
    if f == [] then [] else (if f[0] == '"' then "\"\"" else [f[0]]) + Escaped(f[1..])
  }

  function Quoted(f: string): string { ['"'] + Escaped(f) + ['"'] }

  function PrintedRow(row: (string, string), separator: char): string {
    Quoted(row.0) + [separator] + Quoted(row.1)
  }

  /** The rows, one after the other; `last` says whether the last one is terminated too. */
  function Printed(rows: seq<(string, string)>, separator: char, eol: string, last: bool): string {
    if rows == [] then ""
    else PrintedRow(rows[0], separator) + (if |rows| > 1 || last then eol else "") + Printed(rows[1..], separator, eol, last)
  }

  /** The words of a header, in the order of the columns. */
  datatype Heading = Heading(user: string, password: string, passwordFirst: bool) {
    predicate Valid() {
      && UserHeader(Lower(Trim(user))) && PasswordHeader(Lower(Trim(password)))
      && '\r' !in user && '\r' !in password
    }

    function Row(): (string, string) { if passwordFirst then (password, user) else (user, password) }
  }

  function RowOf(e: Credential, passwordFirst: bool): (string, string) {
    if passwordFirst then (e.password, e.username) else (e.username, e.password)
  }

  function RowsOf(entries: seq<Credential>, passwordFirst: bool): seq<(string, string)> {
    seq(|entries|, i requires 0 <= i < |entries| => RowOf(entries[i], passwordFirst))
  }

  /** With a header the columns come in its order, without one the user name comes first. */
  function TableOf(heading: Option<Heading>, entries: seq<Credential>): seq<(string, string)> {
    match heading
    case None => RowsOf(entries, false)
    case Some(h) => [h.Row()] + RowsOf(entries, h.passwordFirst)
  }

  // ---------------------------------------------------------------- scanning a printed list

  ghost predicate Here(text: string, i: nat, part: string) {
    i + |part| <= |text| && text[i..i + |part|] == part
  }

  lemma HereConcat(text: string, i: nat, a: string, b: string)
    ensures Here(text, i, a + b) <==> Here(text, i, a) && Here(text, i + |a|, b)
  {
    if Here(text, i, a + b) {
      assert (a + b)[..|a|] == a && (a + b)[|a|..] == b;
      assert text[i..i + |a|] == text[i..i + |a + b|][..|a|];
      assert text[i + |a|..i + |a| + |b|] == text[i..i + |a + b|][|a|..];
    }
    if Here(text, i, a) && Here(text, i + |a|, b) {
      assert text[i..i + |a + b|] == text[i..i + |a|] + text[i + |a|..i + |a| + |b|];
    }
  }

  lemma HereFirst(text: string, i: nat, c: char, rest: string)
    requires Here(text, i, [c] + rest)
    ensures i < |text| && text[i] == c && Here(text, i + 1, rest)
  {
    HereConcat(text, i, [c], rest);
    assert text[i..i + 1][0] == c;
  }

  /** The scan after a quoted text whose rest is `f` and which is followed by its closing quote. */
  function Closed(s: Scan, f: string): Scan {
    s.(i := s.i + |Escaped(f)| + 1, field := s.field + f, line := s.line + Newlines(f), quoted := false, afterQuote := true, recordPresent := true)
  }

  lemma NewlinesFirst(f: string)
    requires f != []
    ensures Newlines(f) == (if f[0] == '\n' then 1 else 0) + Newlines(f[1..])
  {
    NewlinesConcat([f[0]], f[1..]);
    assert f == [f[0]] + f[1..];
    assert Newlines([f[0]]) == Newlines([f[0]][..0]) + if f[0] == '\n' then 1 else 0;
  }

  /** One character of a quoted text; a doubled quote counts as one. */
  function QuotedStep(s: Scan, c: char): Scan {
    s.(i := s.i + (if c == '"' then 2 else 1), field := s.field + [c], line := if c == '\n' then s.line + 1 else s.line)
  }

  lemma ScanQuotedChar(text: string, separator: char, s: Scan, c: char, rest: string)
    requires s.quoted && s.recordPresent && Here(text, s.i, (if c == '"' then "\"\"" else [c]) + rest)
    ensures s.i <= |text| && Next(text, separator, s) == Ok(QuotedStep(s, c)) && Here(text, QuotedStep(s, c).i, rest)
  {
    if c == '"' {
      assert "\"\"" + rest == ['"'] + (['"'] + rest);
      HereFirst(text, s.i, '"', ['"'] + rest);
      HereFirst(text, s.i + 1, '"', rest);
    } else {
      HereFirst(text, s.i, c, rest);
    }
  }

  lemma ClosedStep(s: Scan, f: string)
    requires f != [] && s.quoted && s.recordPresent
    ensures Closed(QuotedStep(s, f[0]), f[1..]) == Closed(s, f)
  {
    NewlinesFirst(f);
    assert s.field + [f[0]] + f[1..] == s.field + f;
  }

  lemma {:induction false} ScanQuotedRest(text: string, separator: char, s: Scan, f: string)
    requires s.quoted && s.recordPresent && Here(text, s.i, Escaped(f) + ['"']) && !QuoteAt(text, s.i + |Escaped(f)| + 1)
    ensures ScanFrom(text, separator, s) == ScanFrom(text, separator, Closed(s, f))
    decreases |f|
  {
    if f == [] {
      HereFirst(text, s.i, '"', []);
      assert s.field + f == s.field;
      assert Next(text, separator, s) == Ok(Closed(s, f));
    } else {
      var rest := Escaped(f[1..]) + ['"'];
      assert Escaped(f) + ['"'] == (if f[0] == '"' then "\"\"" else [f[0]]) + rest;
      ScanQuotedChar(text, separator, s, f[0], rest);
      ClosedStep(s, f);
      ScanQuotedRest(text, separator, QuotedStep(s, f[0]), f[1..]);
    }
  }

  /** At the beginning of a field. */
  predicate Ready(s: Scan) { !s.quoted && !s.afterQuote && s.field == "" }

  function AfterField(s: Scan, f: string): Scan {
    s.(i := s.i + |Quoted(f)|, field := f, line := s.line + Newlines(f), afterQuote := true, recordPresent := true)
  }

  lemma ScanQuoted(text: string, separator: char, s: Scan, f: string)
    requires IsSeparator(separator) && Ready(s) && Here(text, s.i, Quoted(f)) && !QuoteAt(text, s.i + |Quoted(f)|)
    ensures ScanFrom(text, separator, s) == ScanFrom(text, separator, AfterField(s, f))
  {
    assert Quoted(f) == ['"'] + (Escaped(f) + ['"']);
    HereFirst(text, s.i, '"', Escaped(f) + ['"']);
    var s' := s.(i := s.i + 1, quoted := true, recordPresent := true);
    assert Next(text, separator, s) == Ok(s');
    ScanQuotedRest(text, separator, s', f);
    assert Closed(s', f) == AfterField(s, f);
  }

  function AtRecord(i: nat, rows: seq<Record>, line: nat): Scan {
    Scan(i, rows, [], "", line, line, false, false, false)
  }

  function RowLines(row: (string, string)): nat { 1 + Newlines(row.0) + Newlines(row.1) }

  lemma ScanSeparator(text: string, separator: char, s: Scan)
    requires IsSeparator(separator) && s.i < |text| && text[s.i] == separator && !s.quoted && s.recordPresent
    ensures ScanFrom(text, separator, s)
         == ScanFrom(text, separator, s.(i := s.i + 1, fields := s.fields + [s.field], field := "", afterQuote := false))
  {
  }

  lemma ScanEndOfRecord(text: string, separator: char, s: Scan)
    requires s.i <= |text| && CharAt(text, s.i) == '\n' && !s.quoted && s.recordPresent
    ensures ScanFrom(text, separator, s)
         == ScanFrom(text, separator, AtRecord(s.i + 1, s.rows + [Record(s.startLine, s.fields + [s.field])], s.line + 1))
  {
  }

  /** The scan within a row, after its first field and the separator. */
  function SecondField(i: nat, rows: seq<Record>, line: nat, startLine: nat, first: string): Scan {
    Scan(i, rows, [first], "", line, startLine, false, false, true)
  }

  lemma FirstFieldDone(i: nat, rows: seq<Record>, line: nat, first: string, s: Scan)
    requires s == AfterField(AtRecord(i, rows, line), first)
    ensures s.(i := s.i + 1, fields := s.fields + [s.field], field := "", afterQuote := false)
         == SecondField(i + |Quoted(first)| + 1, rows, line + Newlines(first), line, first)
  {
    assert [] + [first] == [first];
  }

  lemma SecondFieldDone(i: nat, rows: seq<Record>, line: nat, startLine: nat, first: string, second: string, s: Scan)
    requires s == AfterField(SecondField(i, rows, line, startLine, first), second)
    ensures AtRecord(s.i + 1, s.rows + [Record(s.startLine, s.fields + [s.field])], s.line + 1)
         == AtRecord(i + |Quoted(second)| + 1, rows + [Record(startLine, [first, second])], line + Newlines(second) + 1)
  {
    assert [first] + [second] == [first, second];
  }

  lemma ScanFirstField(text: string, separator: char, i: nat, rows: seq<Record>, line: nat, first: string)
    requires IsSeparator(separator) && Here(text, i, Quoted(first))
    requires i + |Quoted(first)| < |text| && text[i + |Quoted(first)|] == separator
    ensures ScanFrom(text, separator, AtRecord(i, rows, line))
         == ScanFrom(text, separator, SecondField(i + |Quoted(first)| + 1, rows, line + Newlines(first), line, first))
  {
    ScanQuoted(text, separator, AtRecord(i, rows, line), first);
    ScanSeparator(text, separator, AfterField(AtRecord(i, rows, line), first));
    FirstFieldDone(i, rows, line, first, AfterField(AtRecord(i, rows, line), first));
  }

  lemma ScanSecondField(text: string, separator: char, i: nat, rows: seq<Record>, line: nat, startLine: nat, first: string, second: string)
    requires IsSeparator(separator) && Here(text, i, Quoted(second)) && CharAt(text, i + |Quoted(second)|) == '\n'
    ensures ScanFrom(text, separator, SecondField(i, rows, line, startLine, first))
         == ScanFrom(text, separator, AtRecord(i + |Quoted(second)| + 1, rows + [Record(startLine, [first, second])], line + Newlines(second) + 1))
  {
    var s := SecondField(i, rows, line, startLine, first);
    ScanQuoted(text, separator, s, second);
    ScanEndOfRecord(text, separator, AfterField(s, second));
    SecondFieldDone(i, rows, line, startLine, first, second, AfterField(s, second));
  }

  lemma RowParts(text: string, separator: char, i: nat, row: (string, string))
    requires IsSeparator(separator) && Here(text, i, PrintedRow(row, separator))
    ensures var first, second := Quoted(row.0), Quoted(row.1);
      && Here(text, i, first) && i + |first| < |text| && text[i + |first|] == separator && Here(text, i + |first| + 1, second)
      && |PrintedRow(row, separator)| == |first| + 1 + |second|
  {
    var first, second := Quoted(row.0), Quoted(row.1);
    assert PrintedRow(row, separator) == first + ([separator] + second);
    HereConcat(text, i, first, [separator] + second);
    HereFirst(text, i + |first|, separator, second);
  }

  lemma RowBegins(text: string, separator: char, i: nat, rows: seq<Record>, line: nat, row: (string, string))
    requires IsSeparator(separator) && Here(text, i, PrintedRow(row, separator))
    ensures ScanFrom(text, separator, AtRecord(i, rows, line))
         == ScanFrom(text, separator, SecondField(i + |Quoted(row.0)| + 1, rows, line + Newlines(row.0), line, row.0))
  {
    RowParts(text, separator, i, row);
    ScanFirstField(text, separator, i, rows, line, row.0);
  }

  lemma RowEnds(text: string, separator: char, i: nat, rows: seq<Record>, line: nat, row: (string, string), j: nat, line': nat)
    requires IsSeparator(separator) && Here(text, i, PrintedRow(row, separator))
    requires CharAt(text, i + |PrintedRow(row, separator)|) == '\n'
    requires j == i + |PrintedRow(row, separator)| + 1 && line' == line + RowLines(row)
    ensures ScanFrom(text, separator, SecondField(i + |Quoted(row.0)| + 1, rows, line + Newlines(row.0), line, row.0))
         == ScanFrom(text, separator, AtRecord(j, rows + [Record(line, [row.0, row.1])], line'))
  {
    RowParts(text, separator, i, row);
    ScanSecondField(text, separator, i + |Quoted(row.0)| + 1, rows, line + Newlines(row.0), line, row.0, row.1);
  }

  lemma ScanRow(text: string, separator: char, i: nat, rows: seq<Record>, line: nat, row: (string, string), j: nat, line': nat)
    requires IsSeparator(separator) && Here(text, i, PrintedRow(row, separator))
    requires CharAt(text, i + |PrintedRow(row, separator)|) == '\n'
    requires j == i + |PrintedRow(row, separator)| + 1 && line' == line + RowLines(row)
    ensures ScanFrom(text, separator, AtRecord(i, rows, line))
         == ScanFrom(text, separator, AtRecord(j, rows + [Record(line, [row.0, row.1])], line'))
  {
    RowBegins(text, separator, i, rows, line, row);
    RowEnds(text, separator, i, rows, line, row, j, line');
  }

  /** The records of a printed table that begins in this line. */
  function RecordsOf(table: seq<(string, string)>, line: nat): seq<Record> {
    if table == [] then [] else [Record(line, [table[0].0, table[0].1])] + RecordsOf(table[1..], line + RowLines(table[0]))
  }

  /** What stands at the beginning of a printed table. */
  lemma FirstRowHere(text: string, separator: char, i: nat, table: seq<(string, string)>, last: bool)
    requires i <= |text| && table != [] && text[i..] == Printed(table, separator, "\n", last)
    ensures Here(text, i, PrintedRow(table[0], separator))
    ensures CharAt(text, i + |PrintedRow(table[0], separator)|) == '\n'
    ensures var end := i + |PrintedRow(table[0], separator)|;
      if |table| > 1 || last then end < |text| && text[end + 1..] == Printed(table[1..], separator, "\n", last) else end == |text|
  {
    var row := PrintedRow(table[0], separator);
    var rest := Printed(table[1..], separator, "\n", last);
    var end := i + |row|;
    if |table| > 1 || last {
      assert text[i..] == row + "\n" + rest;
      assert text[i..][..|row|] == row && text[i..][|row|] == '\n' && text[i..][|row| + 1..] == rest;
      assert text[i..end] == row && text[end + 1..] == text[i..][|row| + 1..];
    } else {
      assert text[i..] == row + "" + rest == row;
      assert text[i..end] == row;
    }
  }

  lemma OneMoreRow(rows: seq<Record>, table: seq<(string, string)>, line: nat)
    requires table != []
    ensures rows + [Record(line, [table[0].0, table[0].1])] + RecordsOf(table[1..], line + RowLines(table[0])) == rows + RecordsOf(table, line)
    ensures |table| == 1 ==> rows + [Record(line, [table[0].0, table[0].1])] == rows + RecordsOf(table, line)
  {
    var first, rest := [Record(line, [table[0].0, table[0].1])], RecordsOf(table[1..], line + RowLines(table[0]));
    assert RecordsOf(table, line) == first + rest;
    assert rows + first + rest == rows + (first + rest);
    if |table| == 1 {
      assert rest == [] && first + [] == first;
    }
  }

  lemma ScanNothing(text: string, separator: char, i: nat, rows: seq<Record>, line: nat)
    requires i == |text|
    ensures ScanFrom(text, separator, AtRecord(i, rows, line)) == Ok(rows)
  {
    assert Next(text, separator, AtRecord(i, rows, line)) == Ok(AtRecord(i + 1, rows, line + 1));
  }

  lemma ScanBeyond(text: string, separator: char, i: nat, rows: seq<Record>, line: nat)
    requires i > |text|
    ensures ScanFrom(text, separator, AtRecord(i, rows, line)) == Ok(rows)
  {
  }

  lemma ScanFirstRow(text: string, separator: char, i: nat, rows: seq<Record>, line: nat, table: seq<(string, string)>, last: bool, j: nat, line': nat)
    requires IsSeparator(separator) && i <= |text| && table != [] && text[i..] == Printed(table, separator, "\n", last)
    requires j == i + |PrintedRow(table[0], separator)| + 1 && line' == line + RowLines(table[0])
    ensures ScanFrom(text, separator, AtRecord(i, rows, line))
         == ScanFrom(text, separator, AtRecord(j, rows + [Record(line, [table[0].0, table[0].1])], line'))
    ensures if |table| > 1 || last then j <= |text| && text[j..] == Printed(table[1..], separator, "\n", last) else j == |text| + 1
  {
    FirstRowHere(text, separator, i, table, last);
    ScanRow(text, separator, i, rows, line, table[0], j, line');
  }

  /** The text ends with this row. */
  lemma ScanLastRow(text: string, separator: char, i: nat, rows: seq<Record>, line: nat, table: seq<(string, string)>)
    requires IsSeparator(separator) && i <= |text| && |table| == 1 && text[i..] == Printed(table, separator, "\n", false)
    ensures ScanFrom(text, separator, AtRecord(i, rows, line)) == Ok(rows + [Record(line, [table[0].0, table[0].1])])
  {
    var j, line' := i + |PrintedRow(table[0], separator)| + 1, line + RowLines(table[0]);
    ScanFirstRow(text, separator, i, rows, line, table, false, j, line');
    ScanBeyond(text, separator, j, rows + [Record(line, [table[0].0, table[0].1])], line');
  }

  /** `all` are the records read before the table and those of the table. */
  lemma {:induction false} ScanTable(text: string, separator: char, i: nat, rows: seq<Record>, line: nat, table: seq<(string, string)>, last: bool, all: seq<Record>)
    requires IsSeparator(separator) && i <= |text| && text[i..] == Printed(table, separator, "\n", last)
    requires all == rows + RecordsOf(table, line)
    ensures ScanFrom(text, separator, AtRecord(i, rows, line)) == Ok(all)
    decreases |table|
  {
    if table == [] {
      assert all == rows;
      ScanNothing(text, separator, i, rows, line);
    } else if |table| == 1 && !last {
      OneMoreRow(rows, table, line);
      ScanLastRow(text, separator, i, rows, line, table);
    } else {
      var j, rows', line' := i + |PrintedRow(table[0], separator)| + 1, rows + [Record(line, [table[0].0, table[0].1])], line + RowLines(table[0]);
      ScanFirstRow(text, separator, i, rows, line, table, last, j, line');
      OneMoreRow(rows, table, line);
      ScanTable(text, separator, j, rows', line', table[1..], last, all);
    }
  }

  // ------------------------------------------------- detecting the separator of a printed list

  lemma {:induction false} TallyQuotedRest(text: string, i: nat, counts: Counts, f: string)
    requires Here(text, i, Escaped(f) + ['"']) && !QuoteAt(text, i + |Escaped(f)| + 1)
    ensures Tally(text, i, true, counts) == Tally(text, i + |Escaped(f)| + 1, false, counts)
    decreases |f|
  {
    if f == [] {
      HereFirst(text, i, '"', []);
    } else {
      var rest := Escaped(f[1..]) + ['"'];
      if f[0] == '"' {
        assert Escaped(f) + ['"'] == ['"'] + (['"'] + rest);
        HereFirst(text, i, '"', ['"'] + rest);
        HereFirst(text, i + 1, '"', rest);
        TallyQuotedRest(text, i + 2, counts, f[1..]);
      } else {
        assert Escaped(f) + ['"'] == [f[0]] + rest;
        HereFirst(text, i, f[0], rest);
        TallyQuotedRest(text, i + 1, counts, f[1..]);
      }
    }
  }

  lemma TallyQuoted(text: string, i: nat, counts: Counts, f: string)
    requires Here(text, i, Quoted(f)) && !QuoteAt(text, i + |Quoted(f)|)
    ensures Tally(text, i, false, counts) == Tally(text, i + |Quoted(f)|, false, counts)
  {
    assert Quoted(f) == ['"'] + (Escaped(f) + ['"']);
    HereFirst(text, i, '"', Escaped(f) + ['"']);
    TallyQuotedRest(text, i + 1, counts, f);
  }

  lemma DetectsSeparator(text: string, row: (string, string), separator: char)
    requires IsSeparator(separator) && Here(text, 0, PrintedRow(row, separator))
    requires CharAt(text, |PrintedRow(row, separator)|) == '\n'
    ensures Separator(text) == separator
  {
    var first, second := Quoted(row.0), Quoted(row.1);
    var none := Counts(0, 0, 0);
    RowParts(text, separator, 0, row);
    assert text[0] == text[0..|first|][0] == '"';
    TallyQuoted(text, 0, none, row.0);
    TallyQuoted(text, |first| + 1, none.Count(separator), row.1);
    assert Tally(text, |first|, false, none) == Tally(text, |first| + 1, false, none.Count(separator));
    var end := |PrintedRow(row, separator)|;
    assert Tally(text, end, false, none.Count(separator)) == none.Count(separator);
  }

  // ------------------------------------------------------------- the line endings of a printed list

  predicate IsEol(eol: string) { eol == "\n" || eol == "\r\n" || eol == "\r" }

  lemma {:induction false} NormalizePrefix(a: string, b: string)
    requires '\r' !in a
    ensures NormalizeNewlines(a + b) == a + NormalizeNewlines(b)
  {
    if a == [] {
      assert a + b == b;
    } else {
      assert a[0] in a;
      assert (a + b)[1..] == a[1..] + b;
      NormalizePrefix(a[1..], b);
      assert a == [a[0]] + a[1..];
    }
  }

  lemma NormalizeEol(eol: string, b: string)
    requires IsEol(eol) && (b == [] || b[0] != '\n')
    ensures NormalizeNewlines(eol + b) == "\n" + NormalizeNewlines(b)
  {
    if eol == "\r\n" {
      assert (eol + b)[2..] == b;
    } else {
      assert (eol + b)[1..] == b;
    }
  }

  lemma {:induction false} EscapedHasNoReturn(f: string)
    requires '\r' !in f
    ensures '\r' !in Escaped(f)
  {
    if f != [] { EscapedHasNoReturn(f[1..]); }
  }

  ghost predicate NoReturns(table: seq<(string, string)>) {
    forall i :: 0 <= i < |table| ==> '\r' !in table[i].0 && '\r' !in table[i].1
  }

  lemma RowHasNoReturn(row: (string, string), separator: char)
    requires '\r' !in row.0 && '\r' !in row.1 && IsSeparator(separator)
    ensures '\r' !in PrintedRow(row, separator)
  {
    EscapedHasNoReturn(row.0);
    EscapedHasNoReturn(row.1);
  }

  lemma NormalizeRow(row: string, eol: string, rest: string)
    requires '\r' !in row && IsEol(eol) && (rest == [] || rest[0] != '\n')
    ensures NormalizeNewlines(row + eol + rest) == row + "\n" + NormalizeNewlines(rest)
  {
    assert row + eol + rest == row + (eol + rest);
    NormalizePrefix(row, eol + rest);
    NormalizeEol(eol, rest);
    assert row + ("\n" + NormalizeNewlines(rest)) == row + "\n" + NormalizeNewlines(rest);
  }

  lemma PrintedBegins(table: seq<(string, string)>, separator: char, eol: string, last: bool)
    ensures Printed(table, separator, eol, last) == [] || Printed(table, separator, eol, last)[0] == '"'
  {
  }

  lemma {:induction false} NormalizePrinted(table: seq<(string, string)>, separator: char, eol: string, last: bool)
    requires IsEol(eol) && IsSeparator(separator) && NoReturns(table)
    ensures NormalizeNewlines(Printed(table, separator, eol, last)) == Printed(table, separator, "\n", last)
  {
    if table != [] {
      var row, rest := PrintedRow(table[0], separator), Printed(table[1..], separator, eol, last);
      RowHasNoReturn(table[0], separator);
      NormalizePrinted(table[1..], separator, eol, last);
      PrintedBegins(table[1..], separator, eol, last);
      if |table| > 1 || last {
        NormalizeRow(row, eol, rest);
      } else {
        assert row + "" + rest == row + rest;
        assert row + "" + NormalizeNewlines(rest) == row + NormalizeNewlines(rest);
        NormalizePrefix(row, rest);
      }
    }
  }

  // --------------------------------------------------------------------- the round trip

  lemma {:induction false} TrimStartKeeps(s: string, c: char)
    requires c in s && !IsSpace(c)
    ensures c in TrimStart(s)
  {
    if IsSpace(s[0]) { TrimStartKeeps(s[1..], c); }
  }

  lemma {:induction false} TrimEndKeeps(s: string, c: char)
    requires c in s && !IsSpace(c)
    ensures c in TrimEnd(s)
  {
    if IsSpace(s[|s| - 1]) { TrimEndKeeps(s[..|s| - 1], c); }
  }

  lemma HeadersHaveNoDigit(w: string, j: nat)
    requires j < |w| && IsDigit(w[j])
    ensures !UserHeader(w) && !PasswordHeader(w)
  {
  }

  /** No strong password is taken for a header word: it has a digit. */
  lemma StrongIsNoHeader(p: string)
    requires StrongPassword(p)
    ensures !UserHeader(Lower(Trim(p))) && !PasswordHeader(Lower(Trim(p)))
  {
    var i :| 0 <= i < |p| && IsDigit(p[i]);
    TrimStartKeeps(p, p[i]);
    TrimEndKeeps(TrimStart(p), p[i]);
    var j :| 0 <= j < |Trim(p)| && Trim(p)[j] == p[i];
    HeadersHaveNoDigit(Lower(Trim(p)), j);
  }

  lemma {:induction false} RecordsOfTable(table: seq<(string, string)>, line: nat)
    ensures |RecordsOf(table, line)| == |table|
    ensures forall i :: 0 <= i < |table| ==> RecordsOf(table, line)[i].fields == [table[i].0, table[i].1]
  {
    if table != [] { RecordsOfTable(table[1..], line + RowLines(table[0])); }
  }

  function HeaderFor(heading: Option<Heading>): Header {
    match heading
    case None => NoHeader
    case Some(h) => if h.passwordFirst then PasswordFirst else UserFirst
  }

  lemma HeaderRecognised(heading: Option<Heading>, entries: seq<Credential>, rows: seq<Record>)
    requires ValidList(entries) && (heading.Some? ==> heading.value.Valid())
    requires |rows| > 0 && rows[0].fields == [TableOf(heading, entries)[0].0, TableOf(heading, entries)[0].1]
    ensures HeaderOf(rows) == HeaderFor(heading)
  {
    if heading == None {
      assert ValidEntry(entries[0]);
      StrongIsNoHeader(entries[0].password);
    }
  }

  lemma EntriesRead(entries: seq<Credential>, passwordFirst: bool, header: Header, rows: seq<Record>)
    requires ValidList(entries) && |rows| == |entries| && header.PasswordFirst? == passwordFirst
    requires forall i :: 0 <= i < |rows| ==> rows[i].fields == [RowOf(entries[i], passwordFirst).0, RowOf(entries[i], passwordFirst).1]
    ensures Clean(rows, header) && Entries(rows, header) == entries
  {
    forall i | 0 <= i < |rows| ensures EntryOf(rows[i], header) == entries[i] {
      assert ValidEntry(entries[i]);
      TrimFixpoint(entries[i].username);
    }
    assert forall i :: 0 <= i < |rows| ==> CleanRow(rows[i], header) by {
      forall i | 0 <= i < |rows| ensures CleanRow(rows[i], header) { assert ValidEntry(entries[i]); }
    }
  }

  lemma CheckedTable(heading: Option<Heading>, entries: seq<Credential>, rows: seq<Record>)
    requires ValidList(entries) && (heading.Some? ==> heading.value.Valid())
    requires rows == RecordsOf(TableOf(heading, entries), 1)
    ensures Checked(rows) == Ok(entries)
  {
    var table := TableOf(heading, entries);
    RecordsOfTable(table, 1);
    HeaderRecognised(heading, entries, rows);
    var header, body := HeaderFor(heading), BodyRows(rows);
    EntriesRead(entries, header.PasswordFirst?, header, body);
    NoErrorsExactly(body, header);
  }

  lemma TableHasNoReturns(heading: Option<Heading>, entries: seq<Credential>)
    requires heading.Some? ==> heading.value.Valid()
    requires forall i :: 0 <= i < |entries| ==> '\r' !in entries[i].username && '\r' !in entries[i].password
    ensures NoReturns(TableOf(heading, entries))
  {
  }

  /** A list of valid entries without carriage returns, printed with every field quoted, under
      any header or none, with any of the separators and line endings, is read back as it was. */
  lemma PrintedListsAreReadBack(heading: Option<Heading>, entries: seq<Credential>, separator: char, eol: string, last: bool)
    requires ValidList(entries) && IsSeparator(separator) && IsEol(eol) && (heading.Some? ==> heading.value.Valid())
    requires forall i :: 0 <= i < |entries| ==> '\r' !in entries[i].username && '\r' !in entries[i].password
    ensures Parsed(Printed(TableOf(heading, entries), separator, eol, last)) == Ok(entries)
  {
    var table := TableOf(heading, entries);
    var decoded, text := Printed(table, separator, eol, last), Printed(table, separator, "\n", last);
    assert decoded[0] == '"';
    TableHasNoReturns(heading, entries);
    NormalizePrinted(table, separator, eol, last);
    var row := PrintedRow(table[0], separator);
    assert Here(text, 0, row) && CharAt(text, |row|) == '\n';
    DetectsSeparator(text, table[0], separator);
    assert text[0..] == text;
    ScanTable(text, separator, 0, [], 1, table, last, [] + RecordsOf(table, 1));
    assert [] + RecordsOf(table, 1) == RecordsOf(table, 1);
    CheckedTable(heading, entries, RecordsOf(table, 1));
  }
}
