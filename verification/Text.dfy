/** The string operations of ECMAScript that the backend relies on. */
module Text {

  /** WhiteSpace and LineTerminator, the characters that `trim` removes. */
  predicate IsSpace(c: char) {
    || c == '\t' || c == '\n' || c == '\U{0B}' || c == '\U{0C}' || c == '\r' || c == ' '
    || c == '\U{A0}' || c == '\U{1680}' || '\U{2000}' <= c <= '\U{200A}'
    || c == '\U{2028}' || c == '\U{2029}' || c == '\U{202F}' || c == '\U{205F}' || c == '\U{3000}' || c == '\U{FEFF}'
  }

  function TrimStart(s: string): string {
    if s != [] && IsSpace(s[0]) then TrimStart(s[1..]) else s
  }

  function TrimEnd(s: string): string {
    if s != [] && IsSpace(s[|s| - 1]) then TrimEnd(s[..|s| - 1]) else s
  }

  function Trim(s: string): string { TrimEnd(TrimStart(s)) }

  /** What `trim` leaves alone. */
  predicate Trimmed(s: string) {
    s == [] || (!IsSpace(s[0]) && !IsSpace(s[|s| - 1]))
  }

  lemma {:induction false} TrimEndShape(s: string)
    ensures TrimEnd(s) <= s
    ensures TrimEnd(s) == [] || !IsSpace(TrimEnd(s)[|TrimEnd(s)| - 1])
  {
    if s != [] && IsSpace(s[|s| - 1]) {
      TrimEndShape(s[..|s| - 1]);
    }
  }

  lemma {:induction false} TrimStartShape(s: string)
    ensures TrimStart(s) == [] || !IsSpace(TrimStart(s)[0])
    ensures |TrimStart(s)| <= |s|
  {
    if s != [] && IsSpace(s[0]) {
      TrimStartShape(s[1..]);
    }
  }

  lemma TrimIsTrimmed(s: string)
    ensures Trimmed(Trim(s)) && |Trim(s)| <= |s|
  {
    TrimStartShape(s);
    TrimEndShape(TrimStart(s));
  }

  lemma TrimFixpoint(s: string)
    ensures Trim(s) == s <==> Trimmed(s)
    ensures Trim(Trim(s)) == Trim(s)
  {
    TrimIsTrimmed(s);
    var t := Trim(s);
    assert TrimStart(t) == t;
    assert Trimmed(s) ==> TrimStart(s) == s && TrimEnd(s) == s;
  }

  predicate IsBlank(s: string) { forall i :: 0 <= i < |s| ==> IsSpace(s[i]) }

  lemma {:induction false} TrimStartTakes(s: string) returns (a: string)
    ensures s == a + TrimStart(s) && IsBlank(a)
  {
    if s != [] && IsSpace(s[0]) {
      var rest := TrimStartTakes(s[1..]);
      a := [s[0]] + rest;
      assert s == [s[0]] + s[1..];
    } else {
      a := [];
    }
  }

  lemma {:induction false} TrimEndTakes(s: string) returns (b: string)
    ensures s == TrimEnd(s) + b && IsBlank(b)
  {
    if s != [] && IsSpace(s[|s| - 1]) {
      var rest := TrimEndTakes(s[..|s| - 1]);
      b := rest + [s[|s| - 1]];
      assert s == s[..|s| - 1] + [s[|s| - 1]];
    } else {
      b := [];
    }
  }

  /** Trimming takes white space off both ends and nothing else. */
  lemma TrimTakesSpace(s: string) returns (a: string, b: string)
    ensures s == a + Trim(s) + b && IsBlank(a) && IsBlank(b) && Trimmed(Trim(s))
  {
    a := TrimStartTakes(s);
    b := TrimEndTakes(TrimStart(s));
    TrimIsTrimmed(s);
    assert s == a + (Trim(s) + b);
  }

  // ------------------------------------------------------------------- decimal numbers

  function Digit(d: nat): char
    requires d < 10
  {
    '0' + d as char
  }

  /** A number as a template literal prints it. */
  function Decimal(n: nat): string {
    if n < 10 then [Digit(n)] else Decimal(n / 10) + [Digit(n % 10)]
  }

  predicate IsDigit(c: char) { '0' <= c <= '9' }

  lemma {:induction false} DecimalShape(n: nat)
    ensures Decimal(n) != [] && forall i :: 0 <= i < |Decimal(n)| ==> IsDigit(Decimal(n)[i])
  {
    if n >= 10 { DecimalShape(n / 10); }
  }

  lemma {:induction false} DecimalInjective(m: nat, n: nat)
    requires Decimal(m) == Decimal(n)
    ensures m == n
  {
    var a, b := Decimal(m), Decimal(n);
    DecimalShape(m / 10);
    DecimalShape(n / 10);
    assert a[|a| - 1] == Digit(m % 10) && b[|b| - 1] == Digit(n % 10);
    if m >= 10 && n >= 10 {
      assert a[..|a| - 1] == Decimal(m / 10) && b[..|b| - 1] == Decimal(n / 10);
      DecimalInjective(m / 10, n / 10);
    }
  }
}
