/** std::to_string(int) and std::stoi, as the typed configuration accessors use them. */
module Decimal {
  import opened Common

  const INT_MIN: int := -0x8000_0000
  const INT_MAX: int := 0x7fff_ffff

  type Int = n: int | INT_MIN <= n <= INT_MAX

  /** isspace in the C locale. */
  predicate IsSpace(c: char) {
    c == ' ' || '\t' <= c <= '\r'
  }

  predicate IsDigit(c: char) {
    '0' <= c <= '9'
  }

  predicate AllDigits(s: string) {
    forall i :: 0 <= i < |s| ==> IsDigit(s[i])
  }

  predicate AllSpaces(s: string) {
    forall i :: 0 <= i < |s| ==> IsSpace(s[i])
  }

  function DigitChar(d: nat): (c: char)
    requires d < 10
    ensures IsDigit(c) && c as int - '0' as int == d
  {
    ('0' as int + d) as char
  }

  function Digits(n: nat): (s: string)
    ensures |s| > 0 && AllDigits(s) && Value(s) == n
  {
    if n < 10 then [DigitChar(n)]
    else
      var s := Digits(n / 10) + [DigitChar(n % 10)];
      assert s[..|s| - 1] == Digits(n / 10);
      s
  }

  function Magnitude(n: int): nat {
    if n < 0 then -n else n
  }

  function ToString(n: Int): string {
    if n < 0 then "-" + Digits(Magnitude(n)) else Digits(Magnitude(n))
  }

  /** The number a string of digits denotes. */
  function Value(s: string): nat
    requires AllDigits(s)
  {
    if s == [] then 0 else 10 * Value(s[..|s| - 1]) + (s[|s| - 1] as int - '0' as int)
  }

  /** Length of the longest prefix of spaces. */
  function SpacePrefix(s: string): (n: nat)
    ensures n <= |s| && AllSpaces(s[..n]) && (n < |s| ==> !IsSpace(s[n]))
  {
    if s == [] || !IsSpace(s[0]) then 0
    else
      var n := SpacePrefix(s[1..]);
      assert s[..n + 1] == [s[0]] + s[1..][..n];
      n + 1
  }

  /** Length of the longest prefix of digits. */
  function DigitPrefix(s: string): (n: nat)
    ensures n <= |s| && AllDigits(s[..n]) && (n < |s| ==> !IsDigit(s[n]))
  {
    if s == [] || !IsDigit(s[0]) then 0
    else
      var n := DigitPrefix(s[1..]);
      assert s[..n + 1] == [s[0]] + s[1..][..n];
      n + 1
  }

  /** None is the exception of stoi: no digits, or a value an int cannot hold. */
  function Stoi(s: string): Option<Int> {
    SignedPrefix(s[SpacePrefix(s)..])
  }

  function SignedPrefix(t: string): Option<Int> {
    if t == [] then None
    else if t[0] == '-' then InRange(DigitsPrefixValue(t[1..], -1))
    else if t[0] == '+' then InRange(DigitsPrefixValue(t[1..], 1))
    else InRange(DigitsPrefixValue(t, 1))
  }

  function DigitsPrefixValue(u: string, sign: int): Option<int> {
    var n := DigitPrefix(u);
    if n == 0 then None else Some(sign * Value(u[..n]))
  }

  function InRange(v: Option<int>): Option<Int> {
    if v.Some? && INT_MIN <= v.value <= INT_MAX then Some(v.value) else None
  }

  // ---------------------------------------------------------------- properties

  function Pow10(k: nat): nat {
    if k == 0 then 1 else 10 * Pow10(k - 1)
  }

  lemma ValueSnoc(s: string, c: char)
    requires AllDigits(s) && IsDigit(c)
    ensures AllDigits(s + [c]) && Value(s + [c]) == 10 * Value(s) + (c as int - '0' as int)
  {
    assert (s + [c])[..|s + [c]| - 1] == s;
  }

  lemma Shift(x: nat, p: nat, y: nat, d: nat)
    ensures 10 * (x * p + y) + d == x * (10 * p) + (10 * y + d)
  {
  }

  /** Positional notation, base ten: each digit counts for its face times the power of its place. */
  lemma {:induction false} ValueIsPositional(a: string, b: string)
    requires AllDigits(a) && AllDigits(b)
    ensures AllDigits(a + b) && Value(a + b) == Value(a) * Pow10(|b|) + Value(b)
    decreases |b|
  {
    hide Value, AllDigits;
    if b == [] {
      assert a + b == a;
      NoDigits();
    } else {
      var n := |b| - 1;
      var before, c := b[..n], b[n];
      assert b == before + [c] && a + b == (a + before) + [c];
      DigitsOf(b, n);
      ValueIsPositional(a, before);
      ValueSnoc(before, c);
      ValueSnoc(a + before, c);
      Shift(Value(a), Pow10(n), Value(before), c as int - '0' as int);
    }
  }

  lemma NoDigits()
    ensures AllDigits([]) && Value([]) == 0
  {
  }

  lemma DigitsOf(s: string, n: nat)
    requires AllDigits(s) && n < |s|
    ensures AllDigits(s[..n]) && IsDigit(s[n])
  {
  }

  lemma ValueOfDigit(c: char)
    requires '0' <= c <= '9'
    ensures AllDigits([c]) && Value([c]) == c as int - '0' as int
  {
    assert [c] == [] + [c];
    ValueSnoc([], c);
  }

  /** The blanks of the C locale: space, tab, newline, vertical tab, form feed, carriage return. */
  lemma SpacesOfStoi(c: char)
    ensures IsSpace(c) <==> c == ' ' || c as int in {9, 10, 11, 12, 13}
  {
  }

  /** s reads as v: blanks, an optional sign, a maximal non-empty run of digits, then anything. */
  ghost predicate ReadsAs(s: string, v: int, spaces: string, sign: string, digits: string, rest: string) {
    && s == spaces + sign + digits + rest
    && AllSpaces(spaces)
    && (sign == [] || sign == "+" || sign == "-")
    && AllDigits(digits) && digits != []
    && (rest == [] || !IsDigit(rest[0]))
    && v == Signed(sign, Value(digits))
  }

  lemma SpacePrefixPadded(spaces: string, t: string)
    requires AllSpaces(spaces) && (t == [] || !IsSpace(t[0]))
    ensures SpacePrefix(spaces + t) == |spaces|
  {
    var s := spaces + t;
    var n := SpacePrefix(s);
    assert forall i :: 0 <= i < |spaces| ==> s[i] == spaces[i];
    assert n >= |spaces|;
    assert t != [] ==> s[|spaces|] == t[0];
    assert forall i :: 0 <= i < n ==> IsSpace(s[..n][i]) && s[..n][i] == s[i];
  }

  lemma DigitPrefixPadded(digits: string, rest: string)
    requires AllDigits(digits) && (rest == [] || !IsDigit(rest[0]))
    ensures DigitPrefix(digits + rest) == |digits|
  {
    var s := digits + rest;
    var n := DigitPrefix(s);
    assert forall i :: 0 <= i < |digits| ==> s[i] == digits[i];
    assert n >= |digits|;
    assert rest != [] ==> s[|digits|] == rest[0];
    assert forall i :: 0 <= i < n ==> IsDigit(s[..n][i]) && s[..n][i] == s[i];
  }

  /** The value of a sign and a number. */
  function Signed(sign: string, n: nat): int {
    if sign == "-" then -1 * n else 1 * n
  }

  lemma SignedPrefixReads(sign: string, digits: string, rest: string)
    requires sign == [] || sign == "+" || sign == "-"
    requires AllDigits(digits) && digits != [] && (rest == [] || !IsDigit(rest[0]))
    ensures var t := sign + (digits + rest);
            && t != [] && !IsSpace(t[0])
            && SignedPrefix(t) == InRange(Some(Signed(sign, Value(digits))))
  {
    hide DigitPrefix, Value;
    var u := digits + rest;
    var t := sign + u;
    DigitPrefixPadded(digits, rest);
    assert u[..|digits|] == digits && IsDigit(digits[0]);
    if sign == [] {
      assert t == u && t[0] == digits[0];
    } else {
      assert t[0] == sign[0] && t[1..] == u;
    }
  }

  lemma ReadsAsStoi(s: string, v: int, spaces: string, sign: string, digits: string, rest: string)
    requires ReadsAs(s, v, spaces, sign, digits, rest)
    ensures Stoi(s) == if INT_MIN <= v <= INT_MAX then Some(v) else None
  {
    hide SignedPrefix, SpacePrefix, Value;
    var t := sign + (digits + rest);
    assert s == spaces + t && s[|spaces|..] == t;
    SignedPrefixReads(sign, digits, rest);
    SpacePrefixPadded(spaces, t);
  }

  lemma DigitsAhead(u: string) returns (digits: string, rest: string)
    requires DigitPrefix(u) > 0
    ensures u == digits + rest && digits == u[..DigitPrefix(u)]
    ensures AllDigits(digits) && digits != [] && (rest == [] || !IsDigit(rest[0]))
  {
    var n := DigitPrefix(u);
    digits, rest := u[..n], u[n..];
  }

  lemma SignedReads(t: string, v: Int) returns (sign: string, digits: string, rest: string)
    requires SignedPrefix(t) == Some(v) && (t == [] || !IsSpace(t[0]))
    ensures ReadsAs(t, v, [], sign, digits, rest)
  {
    hide DigitPrefix, Value, AllDigits, IsDigit;
    assert AllDigits([]) && AllSpaces([]) by { NoChars(); }
    sign := if t[0] == '-' || t[0] == '+' then [t[0]] else [];
    var u := if sign == [] then t else t[1..];
    digits, rest := DigitsAhead(u);
    assert t == sign + u;
    assert t == [] + sign + digits + rest;
  }

  lemma NoChars()
    ensures AllDigits([]) && AllSpaces([])
  {
  }

  lemma StoiReads(s: string, v: Int) returns (spaces: string, sign: string, digits: string, rest: string)
    requires Stoi(s) == Some(v)
    ensures ReadsAs(s, v, spaces, sign, digits, rest)
  {
    hide SignedPrefix, Value, AllDigits, AllSpaces;
    var n := SpacePrefix(s);
    spaces := s[..n];
    sign, digits, rest := SignedReads(s[n..], v);
    assert s == spaces + (sign + digits + rest);
  }

  /** stoi accepts exactly the strings of that shape whose value an int can hold, and returns it. */
  lemma StoiExact(s: string, v: Int)
    ensures Stoi(s) == Some(v) <==>
            exists spaces, sign, digits, rest :: ReadsAs(s, v, spaces, sign, digits, rest)
  {
    if Stoi(s) == Some(v) {
      var spaces, sign, digits, rest := StoiReads(s, v);
    }
    if spaces, sign, digits, rest :| ReadsAs(s, v, spaces, sign, digits, rest) {
      ReadsAsStoi(s, v, spaces, sign, digits, rest);
    }
  }

  /** Every int, the minimum included, survives printing and reading. */
  lemma StoiToString(n: Int)
    ensures Stoi(ToString(n)) == Some(n)
  {
    var sign := if n < 0 then "-" else [];
    var digits := Digits(Magnitude(n));
    assert ToString(n) == [] + sign + digits + [];
    assert ReadsAs(ToString(n), n, [], sign, digits, []);
    ReadsAsStoi(ToString(n), n, [], sign, digits, []);
  }
}
