/** The parts of the JavaScript runtime the modelled code leans on: string conversion,
    truthiness, Number and parseInt on integers, and ASCII lower-casing. */
module JavaScript {
  datatype Option<+T> = None | Some(value: T)

  /** The values a rule or an employee row can hold. Numbers are whole. */
  datatype Value = Undefined | Null | Bool(b: bool) | Num(n: int) | Str(s: string)

  predicate Digit(c: char) { '0' <= c <= '9' }

  function DigitChar(d: nat): (c: char)
    requires d < 10
    ensures Digit(c)
  {
    ('0' as int + d) as char
  }

  function DigitOf(c: char): nat
    requires Digit(c)
  {
    c as int - '0' as int
  }

  function NatToString(n: nat): (s: string)
    ensures |s| > 0 && forall i :: 0 <= i < |s| ==> Digit(s[i])
  {
    if n < 10 then [DigitChar(n)] else NatToString(n / 10) + [DigitChar(n % 10)]
  }

  /** Number.prototype.toString on whole numbers below 10^21 in size, where it prints plain digits. */
  function NumberToString(n: int): string {
    if n < 0 then "-" + NatToString(-n) else NatToString(n)
  }

  function DigitsValue(s: string): nat
    requires forall i :: 0 <= i < |s| ==> Digit(s[i])
  {
    if s == [] then 0 else DigitsValue(s[..|s| - 1]) * 10 + DigitOf(s[|s| - 1])
  }

  lemma {:induction false} DigitsOfNat(n: nat)
    ensures DigitsValue(NatToString(n)) == n
  {
    if n >= 10 {
      DigitsOfNat(n / 10);
      var s := NatToString(n);
      assert s[..|s| - 1] == NatToString(n / 10);
    }
  }

  /** How many characters of s, from the left, are digits. */
  function DigitPrefix(s: string): (k: nat)
    ensures k <= |s| && forall i :: 0 <= i < k ==> Digit(s[i])
    ensures k < |s| ==> !Digit(s[k])
  {
    if s == [] || !Digit(s[0]) then 0 else 1 + DigitPrefix(s[1..])
  }

  /** White space and line terminators (ECMA-262 sections 12.2 and 12.3). */
  predicate White(c: char) {
    c == '\t' || c == '\n' || c == '\r' || c == ' ' || c == '\U{b}' || c == '\U{c}' || c == '\U{a0}'
    || c == '\U{feff}' || c == '\U{1680}' || '\U{2000}' <= c <= '\U{200a}' || c == '\U{2028}' || c == '\U{2029}'
    || c == '\U{202f}' || c == '\U{205f}' || c == '\U{3000}'
  }

  function TrimStart(s: string): string {
    if s != [] && White(s[0]) then TrimStart(s[1..]) else s
  }

  function TrimEnd(s: string): string {
    if s != [] && White(s[|s| - 1]) then TrimEnd(s[..|s| - 1]) else s
  }

  /** parseInt(s, 10): the longest run of digits after blanks and a sign; None is NaN. */
  function ParseInt(s: string): Option<int> {
    var t := TrimStart(s);
    var negative := t != [] && t[0] == '-';
    var digits := if t != [] && (t[0] == '-' || t[0] == '+') then t[1..] else t;
    var k := DigitPrefix(digits);
    var size: int := DigitsValue(digits[..k]);
    if k == 0 then None else Some(if negative then -size else size)
  }

  lemma NumbersStartWithoutBlanks(n: int)
    ensures TrimStart(NumberToString(n)) == NumberToString(n)
  {
  }

  /** Printing a whole number and reading it back gives the number. */
  lemma ParseIntReadsNumberToString(n: int)
    ensures ParseInt(NumberToString(n)) == Some(n)
  {
    var size := if n < 0 then -n else n;
    DigitsOfNat(size);
    var digits := NatToString(size);
    assert digits[..|digits|] == digits;
    NumbersStartWithoutBlanks(n);
    hide TrimStart;
    if n < 0 {
      assert NumberToString(n)[1..] == digits;
    }
  }

  lemma NumberToStringIsInjective(m: int, n: int)
    requires NumberToString(m) == NumberToString(n)
    ensures m == n
  {
    ParseIntReadsNumberToString(m);
    ParseIntReadsNumberToString(n);
  }

  /** String(v). */
  function ToString(v: Value): string {
    match v
    case Undefined => "undefined"
    case Null => "null"
    case Bool(b) => if b then "true" else "false"
    case Num(n) => NumberToString(n)
    case Str(s) => s
  }

  /** Boolean(v). */
  predicate Truthy(v: Value) {
    match v
    case Undefined => false
    case Null => false
    case Bool(b) => b
    case Num(n) => n != 0
    case Str(s) => s != ""
  }

  /** Number(v) on whole numbers; None is NaN. */
  function ToNumber(v: Value): Option<int> {
    match v
    case Undefined => None
    case Null => Some(0)
    case Bool(b) => Some(if b then 1 else 0)
    case Num(n) => Some(n)
    case Str(s) =>
      var t := TrimEnd(TrimStart(s));
      var digits := if t != [] && (t[0] == '-' || t[0] == '+') then t[1..] else t;
      if t == [] then Some(0)
      else if digits == [] || DigitPrefix(digits) < |digits| then None
      else ParseInt(t)
  }

  function LowerChar(c: char): char {
    if 'A' <= c <= 'Z' then (c as int + 32) as char else c
  }

  function ToLower(s: string): (r: string)
    ensures |r| == |s| && forall i :: 0 <= i < |s| ==> r[i] == LowerChar(s[i])
  {
    seq(|s|, i requires 0 <= i < |s| => LowerChar(s[i]))
  }
}
