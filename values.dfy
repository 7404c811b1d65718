/** Dynamically typed values of the cached event records, and the few Python
    builtins the calendar core applies to them: truthiness, str() and
    str.upper(). */
module Values {

  datatype Option<+T> = None | Some(value: T)

  /** A scalar field of a record as it comes out of the JSON cache file or the
      provider's data frame. Floating-point numbers are not modelled. */
  datatype Value = Null | Text(s: string) | Integer(n: int)

  /** Python truthiness: None, the empty string and zero are false. */
  predicate Truthy(v: Value) {
    match v
    case Null => false
    case Text(s) => s != ""
    case Integer(n) => n != 0
  }

  /** Truthiness of a field that holds either None or a string. */
  predicate Present(s: Option<string>) {
    s.Some? && s.value != ""
  }

  predicate IsDigit(c: char) {
    '0' <= c <= '9'
  }

  predicate AllDigits(s: string) {
    forall i :: 0 <= i < |s| ==> IsDigit(s[i])
  }

  function DigitChar(d: int): (c: char)
    requires 0 <= d < 10
    ensures IsDigit(c) && c as int - '0' as int == d
  {
    ('0' as int + d) as char
  }

  function DigitValue(c: char): (d: int)
    requires IsDigit(c)
    ensures 0 <= d < 10 && DigitChar(d) == c
  {
    c as int - '0' as int
  }

  /** The number a string of decimal digits denotes, most significant first. */
  function DigitsValue(s: string): (n: nat)
    requires AllDigits(s)
  {
    if s == [] then 0 else DigitsValue(s[..|s| - 1]) * 10 + DigitValue(s[|s| - 1])
  }

  /** Python's str() of a non-negative int: shortest decimal digits. */
  function NatToDigits(n: nat): (r: string)
    ensures r != [] && AllDigits(r) && DigitsValue(r) == n
    ensures r[0] == '0' ==> n == 0
  {
    if n < 10 then
      [DigitChar(n)]
    else
      var prefix := NatToDigits(n / 10);
      var r := prefix + [DigitChar(n % 10)];
      assert r[..|r| - 1] == prefix;
      r
  }

  /** Reads back a decimal integer in the format str() writes. */
  predicate IsDecimal(s: string) {
    if |s| > 0 && s[0] == '-' then |s| > 1 && AllDigits(s[1..]) else |s| > 0 && AllDigits(s)
  }

  function DecimalValue(s: string): int
    requires IsDecimal(s)
  {
    if s[0] == '-' then -(DigitsValue(s[1..]) as int) else DigitsValue(s)
  }

  /** Python's str() of an int. */
  function IntToString(n: int): (r: string)
    ensures IsDecimal(r) && DecimalValue(r) == n
    ensures (r[0] == '-') == (n < 0)
    ensures n != 0 ==> r[if n < 0 then 1 else 0] != '0'
  {
    if n < 0 then
      var r := "-" + NatToDigits(-n);
      assert r[1..] == NatToDigits(-n);
      r
    else
      NatToDigits(n)
  }

  /** Python's str() of a record value. */
  function ValueText(v: Value): string {
    match v
    case Null => "None"
    case Text(s) => s
    case Integer(n) => IntToString(n)
  }

  /** str() of a truthy value is never the empty string. */
  lemma TruthyValueTextNonEmpty(v: Value)
    requires Truthy(v)
    ensures ValueText(v) != ""
  {
  }

  /** str.upper() restricted to ASCII letters. */
  function UpperChar(c: char): char {
    if 'a' <= c <= 'z' then (c as int - 32) as char else c
  }

  function Upper(s: string): (r: string)
    ensures |r| == |s|
    ensures forall i :: 0 <= i < |s| ==> r[i] == UpperChar(s[i])
  {
    if s == [] then [] else [UpperChar(s[0])] + Upper(s[1..])
  }
}
