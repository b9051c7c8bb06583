/** The pieces of JavaScript semantics the overlay's logic leans on: the
    values JSON.parse produces, what a localStorage entry holds, truthiness,
    the `\s` whitespace class and `trim`, `String.prototype.includes`, the
    truncating `%` operator and `parseInt(x) || 0`. */
module Js {

  datatype Option<T> = None | Some(value: T)

  /** A value as JSON.parse returns it. Numbers are integers here; objects
      other than arrays do not occur in the stored preferences. */
  datatype Value = Null | Bool(b: bool) | Num(n: int) | Str(s: string) | Arr(items: seq<Value>)

  /** The text held under one localStorage key: either text JSON.parse
      accepts, kept as the value it denotes, or text it rejects. */
  datatype Item = Json(value: Value) | Garbage(text: string)

  /** JavaScript truthiness of a JSON value (`if (v)`, `!v`, `v && ...`). */
  predicate Truthy(v: Value)
  {
    match v
    case Null => false
    case Bool(b) => b
    case Num(n) => n != 0
    case Str(s) => s != []
    case Arr(_) => true
  }

  /** The characters matched by the regular-expression class `\s`, which are
      also the ones `String.prototype.trim` strips. */
  predicate IsSpace(c: char)
  {
    c == '\t' || c == '\n' || c == '\U{B}' || c == '\U{C}' || c == '\r' || c == ' '
    || c == '\U{A0}' || c == '\U{1680}' || ('\U{2000}' <= c <= '\U{200A}')
    || c == '\U{2028}' || c == '\U{2029}' || c == '\U{202F}' || c == '\U{205F}'
    || c == '\U{3000}' || c == '\U{FEFF}'
  }

  predicate AllSpace(s: string)
  {
    forall i | 0 <= i < |s| :: IsSpace(s[i])
  }

  /** Number of whitespace characters at the start of `s`. */
  function LeadingSpaces(s: string): (k: nat)
    ensures k <= |s|
    ensures AllSpace(s[..k])
    ensures k == |s| || !IsSpace(s[k])
  {
    if s == [] || !IsSpace(s[0]) then 0
    else
      var k := 1 + LeadingSpaces(s[1..]);
      assert s[..k] == [s[0]] + s[1..][..k - 1];
      k
  }

  /** Number of whitespace characters at the end of `s`. */
  function TrailingSpaces(s: string): (k: nat)
    ensures k <= |s|
    ensures AllSpace(s[|s| - k..])
    ensures k == |s| || !IsSpace(s[|s| - k - 1])
  {
    if s == [] || !IsSpace(s[|s| - 1]) then 0
    else
      var p := s[..|s| - 1];
      var k := 1 + TrailingSpaces(p);
      assert s[|s| - k..] == p[|p| - (k - 1)..] + [s[|s| - 1]];
      k
  }

  /** The whitespace run at the end of `s` stops before a character that is
      not whitespace. */
  lemma TrailingStops(s: string, a: nat)
    requires a < |s| && !IsSpace(s[a])
    ensures a + TrailingSpaces(s) < |s|
  {
  }

  /** `s.trim()`: `s` without its leading and trailing whitespace. */
  function Trim(s: string): (r: string)
    ensures |r| <= |s|
    ensures r == [] || (!IsSpace(r[0]) && !IsSpace(r[|r| - 1]))
    ensures r == [] <==> AllSpace(s)
    ensures !AllSpace(s) ==>
      LeadingSpaces(s) + TrailingSpaces(s) < |s| && r == s[LeadingSpaces(s)..|s| - TrailingSpaces(s)]
  {
    var a := LeadingSpaces(s);
    if a == |s| then
      assert s[..a] == s;
      []
    else
      TrailingStops(s, a);
      s[a..|s| - TrailingSpaces(s)]
  }

  /** `s.indexOf(c)` with `|s|` in place of -1: the index of the first
      `c` of `s`. */
  function FirstIndexOf(s: string, c: char): (k: nat)
    ensures k <= |s|
    ensures forall i | 0 <= i < k :: s[i] != c
    ensures k < |s| ==> s[k] == c
    decreases |s|
  {
    if s == [] || s[0] == c then 0 else 1 + FirstIndexOf(s[1..], c)
  }

  /** A `c` with none before it is the first one. */
  lemma FirstIndexIs(s: string, c: char, a: nat)
    requires a < |s| && s[a] == c && forall i | 0 <= i < a :: s[i] != c
    ensures FirstIndexOf(s, c) == a
  {
  }

  /** `s.includes(sub)`. */
  function Contains(s: string, sub: string): (r: bool)
    ensures r ==> |sub| <= |s|
    ensures sub <= s ==> r
    decreases |s|
  {
    if sub <= s then true
    else if s == [] then false
    else Contains(s[1..], sub)
  }

  /** How a case-insensitive regular expression (without the `u` flag)
      compares letters: only the ASCII letters have another case. */
  function AsciiLower(c: char): (d: char)
    ensures 'A' <= c <= 'Z' ==> 'a' <= d <= 'z'
    ensures !('A' <= c <= 'Z') ==> d == c
  {
    if 'A' <= c <= 'Z' then (c as int + 32) as char else c
  }

  /** `sub` occurs in `s` at some index: the reference meaning of `includes`. */
  ghost predicate OccursAt(s: string, sub: string, i: int)
  {
    0 <= i && i + |sub| <= |s| && s[i..i + |sub|] == sub
  }

  lemma {:induction false} ContainsMeansOccurs(s: string, sub: string)
    ensures Contains(s, sub) <==> exists i :: OccursAt(s, sub, i)
    decreases |s|
  {
    if sub <= s {
      assert s[0..|sub|] == sub;
      assert OccursAt(s, sub, 0);
    } else if s == [] {
    } else {
      ContainsMeansOccurs(s[1..], sub);
      if exists i :: OccursAt(s[1..], sub, i) {
        var i :| OccursAt(s[1..], sub, i);
        assert s[1..][i..i + |sub|] == s[i + 1..i + 1 + |sub|];
        assert OccursAt(s, sub, i + 1);
      }
      if exists i :: OccursAt(s, sub, i) {
        var i :| OccursAt(s, sub, i);
        assert s[1..][i - 1..i - 1 + |sub|] == s[i..i + |sub|];
        assert OccursAt(s[1..], sub, i - 1);
      }
    }
  }

  /** The `%` operator of JavaScript on integers: the remainder takes the sign
      of the dividend (Dafny's own `%` is Euclidean). */
  function JsRem(a: int, b: int): (r: int)
    requires b > 0
    ensures -b < r < b
    ensures a >= 0 ==> r >= 0
    ensures a <= 0 ==> r <= 0
    ensures (a - r) % b == 0
  {
    if a >= 0 then
      var q, m := a / b, a % b;
      assert a == b * q + m;
      assert a - m == q * b;
      MultipleRem(q, b);
      m
    else
      var q, m := (-a) / b, (-a) % b;
      assert -a == b * q + m;
      assert a + m == (-q) * b;
      MultipleRem(-q, b);
      -m
  }

  lemma MultipleRem(k: int, b: int)
    requires b > 0
    ensures (k * b) % b == 0
  {
    var q, m := (k * b) / b, (k * b) % b;
    var d := k - q;
    assert m == b * d by {
      assert k * b == b * q + m;
      assert b * d == b * k - b * q;
    }
  }

  predicate IsDigit(c: char)
  {
    '0' <= c <= '9'
  }

  predicate AllDigits(s: string)
  {
    forall i | 0 <= i < |s| :: IsDigit(s[i])
  }

  function DigitChar(d: nat): (c: char)
    requires d < 10
    ensures IsDigit(c)
  {
    ('0' as int + d) as char
  }

  /** Value of a string of decimal digits. */
  function DigitsToNat(ds: string): nat
    requires AllDigits(ds)
  {
    if ds == [] then 0
    else DigitsToNat(ds[..|ds| - 1]) * 10 + (ds[|ds| - 1] as int - '0' as int)
  }

  /** The decimal text of a natural number, without leading zeros. */
  function NatToDigits(n: nat): (r: string)
    ensures r != [] && AllDigits(r)
  {
    if n < 10 then [DigitChar(n)] else NatToDigits(n / 10) + [DigitChar(n % 10)]
  }

  /** The text `String(n)` and `JSON.stringify(n)` produce for an integer. */
  function ShowInt(n: int): string
  {
    if n < 0 then "-" + NatToDigits(-n) else NatToDigits(n)
  }

  /** Number of decimal digits at the start of `s`. */
  function LeadingDigits(s: string): (k: nat)
    ensures k <= |s|
    ensures AllDigits(s[..k])
    ensures k == |s| || !IsDigit(s[k])
  {
    if s == [] || !IsDigit(s[0]) then 0
    else
      var k := 1 + LeadingDigits(s[1..]);
      assert s[..k] == [s[0]] + s[1..][..k - 1];
      k
  }

  /** `parseInt(s)` for decimal text, with NaN read as 0 as `|| 0` does:
      leading whitespace is skipped, one sign is accepted, and the longest
      run of digits after it is read. */
  function ParseIntText(s: string): int
  {
    var t := s[LeadingSpaces(s)..];
    if t != [] && (t[0] == '-' || t[0] == '+') then
      var u := t[1..];
      var k := LeadingDigits(u);
      var magnitude: int := DigitsToNat(u[..k]);
      if t[0] == '-' then -magnitude else magnitude
    else
      DigitsToNat(t[..LeadingDigits(t)])
  }

  /** `parseInt(v) || 0` on a stored JSON value. */
  function ParseIntOr0(v: Value): (r: int)
    ensures v.Num? ==> r == v.n
    ensures v.Null? || v.Bool? ==> r == 0
  {
    match v
    case Num(n) => n
    case Str(s) => ParseIntText(s)
    case _ => 0
  }

  lemma {:induction false} DigitsRoundTrip(n: nat)
    ensures DigitsToNat(NatToDigits(n)) == n
  {
    if n >= 10 {
      DigitsRoundTrip(n / 10);
      var r := NatToDigits(n / 10) + [DigitChar(n % 10)];
      assert r[..|r| - 1] == NatToDigits(n / 10);
    }
  }

  lemma {:induction false} AllDigitsRead(s: string)
    requires AllDigits(s)
    ensures LeadingDigits(s) == |s|
  {
    if s != [] {
      AllDigitsRead(s[1..]);
    }
  }

  /** Reading back the decimal text of an integer gives the integer: a level
      stored as text is restored as the same number. */
  lemma ParseIntShowInt(n: int)
    ensures ParseIntText(ShowInt(n)) == n
  {
    var m := if n < 0 then -n else n;
    var ds := NatToDigits(m);
    DigitsRoundTrip(m);
    AllDigitsRead(ds);
    assert ds[..|ds|] == ds;
    var s := ShowInt(n);
    assert LeadingSpaces(s) == 0 by { assert !IsSpace(s[0]); }
    assert s[0..] == s;
    if n < 0 {
      assert s[1..] == ds;
    }
  }
}
