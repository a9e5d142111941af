/** backend/src/items/item-row-key.util.ts: the key of an Explorer row, made of the uuid of an
    item and, for partial-credit rows, the percent-encoded sub id (section 2.1 of RFC 3986,
    over UTF-8). Strings are sequences of Unicode scalar values. */
module ItemRowKey {
  import opened Outcomes
  import opened Text

  // ---------------------------------------------------------------------- percent-encoding

  function HexDigit(d: nat): char
    requires d < 16
  {
    if d < 10 then '0' + d as char else 'A' + (d - 10) as char
  }

  function HexValue(c: char): Option<nat> {
    if '0' <= c <= '9' then Some((c - '0') as nat)
    else if 'A' <= c <= 'F' then Some((c - 'A') as nat + 10)
    else if 'a' <= c <= 'f' then Some((c - 'a') as nat + 10)
    else None
  }

  /** The characters that `encodeURIComponent` leaves alone. */
  predicate Unescaped(c: char) {
    || 'A' <= c <= 'Z' || 'a' <= c <= 'z' || '0' <= c <= '9'
    || c in "-_.!~*'()"
  }

  function Escape(octet: nat): string
    requires octet < 256
  {
    ['%', HexDigit(octet / 16), HexDigit(octet % 16)]
  }

  type Octet = n: int | 0 <= n < 256

  function Utf8(c: char): seq<Octet> {
    var n := c as int;
    if n < 0x80 then [n]
    else if n < 0x800 then [0xC0 + n / 0x40, 0x80 + n % 0x40]
    else if n < 0x10000 then [0xE0 + n / 0x1000, 0x80 + n / 0x40 % 0x40, 0x80 + n % 0x40]
    else [0xF0 + n / 0x40000, 0x80 + n / 0x1000 % 0x40, 0x80 + n / 0x40 % 0x40, 0x80 + n % 0x40]
  }

  function EscapeAll(octets: seq<Octet>): string {
    if octets == [] then [] else EscapeAll(octets[..|octets| - 1]) + Escape(octets[|octets| - 1])
  }

  function EncodeChar(c: char): string {
    if Unescaped(c) then [c] else EscapeAll(Utf8(c))
  }

  /** `encodeURIComponent` */
  function Encode(s: string): string {
    if s == [] then [] else EncodeChar(s[0]) + Encode(s[1..])
  }

  /** The octet of an escape at position `i`. */
  function OctetAt(s: string, i: nat): Option<nat> {
    if i + 3 <= |s| && s[i] == '%' && HexValue(s[i + 1]).Some? && HexValue(s[i + 2]).Some? then
      Some(HexValue(s[i + 1]).value * 16 + HexValue(s[i + 2]).value)
    else None
  }

  /** The six payload bits of a continuation octet. */
  function ContinuationAt(s: string, i: nat): Option<nat> {
    match OctetAt(s, i)
    case Some(octet) => if 0x80 <= octet < 0xC0 then Some(octet - 0x80) else None
    case None => None
  }

  predicate IsScalar(n: nat) { n < 0xD800 || 0xE000 <= n < 0x110000 }

  /** The first character and how much text it takes; nothing for a malformed escape, an
      overlong form, a surrogate or a value out of range. */
  function DecodeFirst(s: string): Option<(char, nat)>
    requires s != []
  {
    if s[0] != '%' then Some((s[0], 1))
    else
      match OctetAt(s, 0)
      case None => None
      case Some(b) =>
        if b < 0x80 then Some((b as char, 3))
        else if 0xC0 <= b < 0xE0 then
          var c1 := ContinuationAt(s, 3);
          if c1.Some? && b * 0x40 - 0x3000 + c1.value >= 0x80 then
            Some(((b * 0x40 - 0x3000 + c1.value) as char, 6)) else None
        else if 0xE0 <= b < 0xF0 then
          var c1, c2 := ContinuationAt(s, 3), ContinuationAt(s, 6);
          if c1.Some? && c2.Some? then
            var n := (b - 0xE0) * 0x1000 + c1.value * 0x40 + c2.value;
            if n >= 0x800 && IsScalar(n) then Some((n as char, 9)) else None
          else None
        else if 0xF0 <= b < 0xF8 then
          var c1, c2, c3 := ContinuationAt(s, 3), ContinuationAt(s, 6), ContinuationAt(s, 9);
          if c1.Some? && c2.Some? && c3.Some? then
            var n := (b - 0xF0) * 0x40000 + c1.value * 0x1000 + c2.value * 0x40 + c3.value;
            if n >= 0x10000 && IsScalar(n) then Some((n as char, 12)) else None
          else None
        else None
  }

  /** `decodeURIComponent`; None stands for a URIError. */
  function Decode(s: string): Option<string>
    decreases |s|
  {
    if s == [] then Some([])
    else
      match DecodeFirst(s)
      case None => None
      case Some((c, n)) =>
        if n > |s| then None
        else
          match Decode(s[n..])
          case None => None
          case Some(rest) => Some([c] + rest)
  }

  lemma HexInverse(d: nat)
    requires d < 16
    ensures HexValue(HexDigit(d)) == Some(d) && !IsSpace(HexDigit(d)) && HexDigit(d) != ':'
  {
  }

  lemma EscapedOctet(before: string, octet: Octet, after: string)
    ensures OctetAt(before + Escape(octet) + after, |before|) == Some(octet)
  {
    HexInverse(octet / 16);
    HexInverse(octet % 16);
  }

  /** The octets can be read off at multiples of three. */
  lemma {:induction false} EscapedOctets(octets: seq<Octet>, rest: string)
    ensures |EscapeAll(octets)| == 3 * |octets|
    ensures forall k :: 0 <= k < |octets| ==> OctetAt(EscapeAll(octets) + rest, 3 * k) == Some(octets[k])
  {
    if octets != [] {
      var n := |octets| - 1;
      var front := EscapeAll(octets[..n]);
      EscapedOctets(octets[..n], Escape(octets[n]) + rest);
      EscapedOctet(front, octets[n], rest);
      assert EscapeAll(octets) + rest == front + Escape(octets[n]) + rest;
      assert front + Escape(octets[n]) + rest == front + (Escape(octets[n]) + rest);
    }
  }

  lemma DecodeTwo(s: string, n: nat)
    requires s != [] && s[0] == '%' && 0x80 <= n < 0x800
    requires OctetAt(s, 0) == Some(0xC0 + n / 0x40) && OctetAt(s, 3) == Some(0x80 + n % 0x40)
    ensures DecodeFirst(s) == Some((n as char, 6))
  {
  }

  lemma DecodeThree(s: string, n: nat)
    requires s != [] && s[0] == '%' && 0x800 <= n < 0x10000 && IsScalar(n)
    requires OctetAt(s, 0) == Some(0xE0 + n / 0x1000) && OctetAt(s, 3) == Some(0x80 + n / 0x40 % 0x40)
    requires OctetAt(s, 6) == Some(0x80 + n % 0x40)
    ensures DecodeFirst(s) == Some((n as char, 9))
  {
    ThreeOctets(n);
  }

  lemma DecodeFour(s: string, n: nat)
    requires s != [] && s[0] == '%' && 0x10000 <= n && IsScalar(n)
    requires OctetAt(s, 0) == Some(0xF0 + n / 0x40000) && OctetAt(s, 3) == Some(0x80 + n / 0x1000 % 0x40)
    requires OctetAt(s, 6) == Some(0x80 + n / 0x40 % 0x40) && OctetAt(s, 9) == Some(0x80 + n % 0x40)
    ensures DecodeFirst(s) == Some((n as char, 12))
  {
    FourOctets(n);
  }

  /** A text that begins with the escaped octets of a character begins with that character. */
  lemma OctetsDecode(c: char, s: string)
    requires forall k :: 0 <= k < |Utf8(c)| ==> OctetAt(s, 3 * k) == Some(Utf8(c)[k])
    ensures s != [] && DecodeFirst(s) == Some((c, 3 * |Utf8(c)|))
  {
    var n, u := c as int, Utf8(c);
    assert OctetAt(s, 3 * 0) == Some(u[0]);
    if n < 0x80 {
      assert DecodeFirst(s) == Some((c, 3));
    } else if n < 0x800 {
      assert OctetAt(s, 3 * 1) == Some(u[1]);
      DecodeTwo(s, n);
    } else if n < 0x10000 {
      assert OctetAt(s, 3 * 1) == Some(u[1]) && OctetAt(s, 3 * 2) == Some(u[2]);
      DecodeThree(s, n);
    } else {
      assert OctetAt(s, 3 * 1) == Some(u[1]) && OctetAt(s, 3 * 2) == Some(u[2]) && OctetAt(s, 3 * 3) == Some(u[3]);
      DecodeFour(s, n);
    }
  }

  lemma EncodeCharDecodes(c: char, rest: string)
    ensures EncodeChar(c) != [] && DecodeFirst(EncodeChar(c) + rest) == Some((c, |EncodeChar(c)|))
  {
    if !Unescaped(c) {
      EscapedOctets(Utf8(c), rest);
      OctetsDecode(c, EncodeChar(c) + rest);
    }
  }

  lemma ThreeOctets(n: nat)
    ensures n / 0x1000 * 0x1000 + n / 0x40 % 0x40 * 0x40 + n % 0x40 == n
  {
  }

  lemma FourOctets(n: nat)
    ensures n / 0x40000 * 0x40000 + n / 0x1000 % 0x40 * 0x1000 + n / 0x40 % 0x40 * 0x40 + n % 0x40 == n
  {
    var a, b := n / 0x40, n / 0x1000;
    assert n == a * 0x40 + n % 0x40;
    assert b == a / 0x40 && a == b * 0x40 + a % 0x40;
    assert n / 0x40000 == b / 0x40 && b == b / 0x40 * 0x40 + b % 0x40;
  }

  lemma {:induction false} DecodeEncode(s: string)
    ensures Decode(Encode(s)) == Some(s)
  {
    if s != [] {
      var e := EncodeChar(s[0]);
      EncodeCharDecodes(s[0], Encode(s[1..]));
      assert Encode(s) == e + Encode(s[1..]) && Encode(s)[|e|..] == Encode(s[1..]);
      DecodeEncode(s[1..]);
      assert [s[0]] + s[1..] == s;
    }
  }

  lemma EncodeInjective(s: string, t: string)
    requires Encode(s) == Encode(t)
    ensures s == t
  {
    DecodeEncode(s);
    DecodeEncode(t);
  }

  /** Only unreserved characters and escapes: no white space and no colon. */
  lemma {:induction false} EncodeAlphabet(s: string)
    ensures s != [] ==> Encode(s) != []
    ensures forall i :: 0 <= i < |Encode(s)| ==> !IsSpace(Encode(s)[i]) && Encode(s)[i] != ':'
  {
    if s != [] {
      EncodeAlphabet(s[1..]);
      EncodeCharDecodes(s[0], []);
      if Unescaped(s[0]) {
        assert !IsSpace(s[0]);
      } else {
        EscapeAlphabet(Utf8(s[0]));
      }
    }
  }

  lemma {:induction false} EscapeAlphabet(octets: seq<Octet>)
    ensures forall i :: 0 <= i < |EscapeAll(octets)| ==> !IsSpace(EscapeAll(octets)[i]) && EscapeAll(octets)[i] != ':'
  {
    if octets != [] {
      var n := |octets| - 1;
      EscapeAlphabet(octets[..n]);
      HexInverse(octets[n] / 16);
      HexInverse(octets[n] % 16);
    }
  }

  // -------------------------------------------------------------------------------- keys

  /** `buildItemRowKey`; an absent sub id is the empty string. */
  function BuildItemRowKey(itemUuid: string, subId: string): string {
    if Trim(subId) == "" then Trim(itemUuid) else Trim(itemUuid) + "::" + Encode(Trim(subId))
  }

  /** The position of the first "::", or the length of the text. */
  function SeparatorIndex(s: string): (i: nat)
    ensures i <= |s|
    ensures i < |s| ==> i + 1 < |s| && s[i] == ':' && s[i + 1] == ':'
    ensures forall j :: 0 <= j < i && j + 1 < |s| ==> !(s[j] == ':' && s[j + 1] == ':')
  {
    if |s| < 2 then |s|
    else if s[0] == ':' && s[1] == ':' then 0
    else 1 + SeparatorIndex(s[1..])
  }

  datatype RowKeyParts = RowKeyParts(itemUuid: string, subId: string)

  /** `parseItemRowKeyParts` */
  function ParseItemRowKeyParts(rowKey: string): Option<RowKeyParts> {
    var key := Trim(rowKey);
    var i := SeparatorIndex(key);
    if i == |key| || i == 0 then None
    else
      var itemUuid, encoded := Trim(key[..i]), key[i + 2..];
      if itemUuid == "" || encoded == "" then None
      else
        match Decode(encoded)
        case None => None
        case Some(decoded) =>
          var subId := Trim(decoded);
          if subId == "" || BuildItemRowKey(itemUuid, subId) != key then None
          else Some(RowKeyParts(itemUuid, subId))
  }

  /** A uuid that can be told from a sub id behind it. */
  predicate Separable(itemUuid: string) {
    itemUuid != "" && SeparatorIndex(itemUuid) == |itemUuid| && itemUuid[|itemUuid| - 1] != ':'
  }

  lemma SeparatorOf(u: string, rest: string)
    ensures Separable(u) ==> SeparatorIndex(u + "::" + rest) == |u|
    ensures !Separable(u) ==> SeparatorIndex(u + "::" + rest) < |u| || u == ""
  {
    var s := u + "::" + rest;
    assert s[|u|] == ':' && s[|u| + 1] == ':';
    var i := SeparatorIndex(s);
    assert i <= |u|;
    assert forall x :: 0 <= x < |u| ==> s[x] == u[x];
    if SeparatorIndex(u) < |u| {
      var j := SeparatorIndex(u);
      assert s[j] == ':' && s[j + 1] == ':';
    } else if u != "" && u[|u| - 1] == ':' {
      assert s[|u| - 1] == ':' && s[|u|] == ':';
    }
  }

  lemma BuiltKeyIsTrimmed(u: string, s: string)
    requires Trimmed(u) && u != "" && s != ""
    ensures Trimmed(u + "::" + Encode(s))
  {
    EncodeAlphabet(s);
    var k := u + "::" + Encode(s);
    assert k[0] == u[0];
    assert k[|k| - 1] == Encode(s)[|Encode(s)| - 1];
  }

  lemma TrimShorter(s: string)
    ensures |Trim(s)| <= |s|
  {
    TrimIsTrimmed(s);
  }

  /** How a key is read that has nothing to trim. */
  lemma ReadParts(key: string, u: string, encoded: string, s: string)
    requires key == u + "::" + encoded && Trim(key) == key && Trim(u) == u && Trim(s) == s
    requires SeparatorIndex(key) == |u| && u != "" && encoded != "" && Decode(encoded) == Some(s) && s != ""
    requires BuildItemRowKey(u, s) == key
    ensures ParseItemRowKeyParts(key) == Some(RowKeyParts(u, s))
  {
    assert key[..|u|] == u && key[|u| + 2..] == encoded;
  }

  lemma ReadBack(u: string, s: string)
    requires Trimmed(u) && Trimmed(s) && Separable(u) && s != ""
    ensures ParseItemRowKeyParts(u + "::" + Encode(s)) == Some(RowKeyParts(u, s))
  {
    BuiltKeyIsTrimmed(u, s);
    TrimFixpoint(u + "::" + Encode(s));
    TrimFixpoint(u);
    TrimFixpoint(s);
    SeparatorOf(u, Encode(s));
    EncodeAlphabet(s);
    DecodeEncode(s);
    ReadParts(u + "::" + Encode(s), u, Encode(s), s);
  }

  lemma NotReadBack(u: string, s: string, k: string)
    requires k == u + "::" + Encode(s) && Trimmed(u) && u != "" && !Separable(u) && s != ""
    ensures ParseItemRowKeyParts(k).Some? ==> |ParseItemRowKeyParts(k).value.itemUuid| < |u|
  {
    BuiltKeyIsTrimmed(u, s);
    TrimFixpoint(k);
    SeparatorOf(u, Encode(s));
    TrimShorter(k[..SeparatorIndex(k)]);
  }

  /** The key of a row is read back exactly if the uuid is separable and there is a sub id. */
  lemma RowKeyRoundTrip(itemUuid: string, subId: string)
    ensures ParseItemRowKeyParts(BuildItemRowKey(itemUuid, subId)) == Some(RowKeyParts(Trim(itemUuid), Trim(subId)))
       <==> Separable(Trim(itemUuid)) && Trim(subId) != ""
  {
    var u, s := Trim(itemUuid), Trim(subId);
    TrimIsTrimmed(itemUuid);
    TrimIsTrimmed(subId);
    if s == "" {
      NoSubId(u);
    } else if Separable(u) {
      ReadBack(u, s);
    } else if u == "" {
      EmptyUuid(s);
    } else {
      NotReadBack(u, s, u + "::" + Encode(s));
    }
  }

  /** What is read has a sub id. */
  lemma NoSubId(key: string)
    ensures ParseItemRowKeyParts(key).Some? ==> ParseItemRowKeyParts(key).value.subId != ""
  {
  }

  lemma EmptyUuid(s: string)
    requires s != ""
    ensures ParseItemRowKeyParts("::" + Encode(s)).None?
  {
    EncodeAlphabet(s);
    var k := "::" + Encode(s);
    assert k[|k| - 1] == Encode(s)[|Encode(s)| - 1];
    TrimFixpoint(k);
  }

  /** Every accepted key is the canonical key of what it names, so no two keys name the same row. */
  lemma AcceptedKeysAreCanonical(rowKey: string, other: string)
    requires ParseItemRowKeyParts(rowKey).Some?
    ensures var parts := ParseItemRowKeyParts(rowKey).value;
      && BuildItemRowKey(parts.itemUuid, parts.subId) == Trim(rowKey)
      && Separable(parts.itemUuid) && Trimmed(parts.itemUuid) && Trimmed(parts.subId) && parts.subId != ""
    ensures ParseItemRowKeyParts(other) == ParseItemRowKeyParts(rowKey) ==> Trim(other) == Trim(rowKey)
  {
    var parts := ParseItemRowKeyParts(rowKey).value;
    var key := Trim(rowKey);
    TrimFixpoint(rowKey);
    TrimFixpoint(key[..SeparatorIndex(key)]);
    TrimFixpoint(Decode(key[SeparatorIndex(key) + 2..]).value);
    TrimFixpoint(parts.itemUuid);
    TrimFixpoint(parts.subId);
    assert ParseItemRowKeyParts(key) == ParseItemRowKeyParts(rowKey);
    RowKeyRoundTrip(parts.itemUuid, parts.subId);
  }

  lemma BuiltKeysAreTrimmed(u: string, s: string)
    ensures Trimmed(BuildItemRowKey(u, s))
  {
    TrimIsTrimmed(u);
    if Trim(s) != "" {
      EncodeAlphabet(Trim(s));
      var k := Trim(u) + "::" + Encode(Trim(s));
      assert k[0] == if Trim(u) != "" then Trim(u)[0] else ':';
      assert k[|k| - 1] == Encode(Trim(s))[|Encode(Trim(s))| - 1];
    }
  }

  /** What follows the last "::" can be told if it holds no colon. */
  lemma LastSeparator(a: string, b: string, x: string, y: string)
    requires a + "::" + x == b + "::" + y
    requires forall i :: 0 <= i < |x| ==> x[i] != ':'
    requires forall i :: 0 <= i < |y| ==> y[i] != ':'
    ensures a == b && x == y
  {
    var s, t := a + "::" + x, b + "::" + y;
    assert forall i :: |a| + 2 <= i < |s| ==> s[i] == x[i - |a| - 2];
    assert forall i :: |b| + 2 <= i < |t| ==> t[i] == y[i - |b| - 2];
    assert s[|a| + 1] == ':' && t[|b| + 1] == ':';
    assert |a| <= |b| && |b| <= |a|;
    assert a == s[..|a|] && b == t[..|b|];
    assert x == s[|a| + 2..] && y == t[|b| + 2..];
  }

  /** Two rows have the same key only if one of the uuids is, but for white space, the other one or
      a key of one of its rows. */
  lemma KeysCollideExactly(u: string, s: string, v: string, t: string)
    requires Trimmed(s) && Trimmed(t)
    ensures BuildItemRowKey(u, s) == BuildItemRowKey(v, t) <==>
      || (Trim(u) == Trim(v) && s == t)
      || (s != "" && t == "" && BuildItemRowKey(u, s) == Trim(v))
      || (s == "" && t != "" && BuildItemRowKey(v, t) == Trim(u))
  {
    TrimFixpoint(s);
    TrimFixpoint(t);
    if s != "" && t != "" {
      EncodeAlphabet(s);
      EncodeAlphabet(t);
      if BuildItemRowKey(u, s) == BuildItemRowKey(v, t) {
        LastSeparator(Trim(u), Trim(v), Encode(s), Encode(t));
        EncodeInjective(s, t);
      }
    }
  }

  /** `parseItemRowKey`: the sub id of a row of the given item, None within for its base row. */
  function ParseItemRowKey(rowKey: string, itemUuid: string): Option<Option<string>> {
    var key, uuid := Trim(rowKey), Trim(itemUuid);
    if key == "" || uuid == "" then None
    else if key == uuid then Some(None)
    else
      match ParseItemRowKeyParts(key)
      case Some(parts) => if parts.itemUuid == uuid then Some(Some(parts.subId)) else None
      case None => None
  }

  /** The keys of one item's rows, and only these, are recognised as such. */
  lemma RowsOfItem(rowKey: string, itemUuid: string)
    requires Separable(Trim(itemUuid))
    ensures ParseItemRowKey(rowKey, itemUuid) == Some(None) <==> Trim(rowKey) == BuildItemRowKey(itemUuid, "")
    ensures forall subId :: Trimmed(subId) && subId != "" ==>
      (ParseItemRowKey(rowKey, itemUuid) == Some(Some(subId)) <==> Trim(rowKey) == BuildItemRowKey(itemUuid, subId))
  {
    var key, uuid := Trim(rowKey), Trim(itemUuid);
    TrimFixpoint(rowKey);
    TrimFixpoint(itemUuid);
    forall subId | Trimmed(subId) && subId != ""
      ensures ParseItemRowKey(rowKey, itemUuid) == Some(Some(subId)) <==> key == BuildItemRowKey(itemUuid, subId)
    {
      TrimFixpoint(subId);
      RowKeyRoundTrip(itemUuid, subId);
      if ParseItemRowKeyParts(key).Some? {
        AcceptedKeysAreCanonical(key, key);
      }
    }
  }
}
