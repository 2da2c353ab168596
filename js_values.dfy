/** JavaScript values as they appear in the parsed CSV rows, request bodies and
    component props of the gym dashboard, with the coercions the code relies on:
    `String(v)`, `Number(v)`, truthiness, `??`, `toLowerCase`, `trim`, `split`
    and `parseInt`. */
module JsValues {

  datatype Option<+T> = None | Some(value: T)

  datatype Result<+T, +E> = Ok(value: T) | Err(error: E)

  /** A JavaScript scalar. Finite numbers are kept exactly as reals. */
  datatype Value =
    | Num(x: real)
    | NaN
    | Infinity(positive: bool)
    | Str(s: string)
    | Bool(b: bool)
    | Null
    | Undefined

  /** A parsed CSV record or a plain object: a missing key reads as `undefined`. */
  type Row = map<string, Value>

  function Get(row: Row, key: string): Value
  {
    if key in row then row[key] else Undefined
  }

  /** `v == null` (true for both null and undefined) */
  predicate IsNullish(v: Value)
  {
    v == Null || v == Undefined
  }

  /** `a ?? b` */
  function Coalesce(a: Value, b: Value): Value
  {
    if IsNullish(a) then b else a
  }

  /** `Boolean(v)` */
  predicate Truthy(v: Value)
  {
    match v
    case Num(x) => x != 0.0
    case NaN => false
    case Infinity(_) => true
    case Str(s) => s != ""
    case Bool(b) => b
    case Null => false
    case Undefined => false
  }

  /** `Number.isFinite(v)`: no coercion, so only a finite number qualifies. */
  predicate IsFiniteNumber(v: Value)
  {
    v.Num?
  }

  /** The flag test shared by the class and drink charts:
      `v === 1 || v === '1' || v === true || v === 'true'`. */
  predicate IsFlagSet(v: Value)
  {
    v == Num(1.0) || v == Str("1") || v == Bool(true) || v == Str("true")
  }

  /** The row's `key` column holds a set flag. */
  function FlagIn(key: string): Row -> bool
  {
    row => IsFlagSet(Get(row, key))
  }

  // ---------------------------------------------------------------------------
  // Characters and strings

  predicate IsDigit(c: char) { '0' <= c <= '9' }

  function DigitValue(c: char): nat
    requires IsDigit(c)
  {
    (c as int) - ('0' as int)
  }

  /** The white space that `trim` and `\s` remove; only the ASCII members are modelled. */
  predicate IsSpace(c: char)
  {
    c == ' ' || c == '\t' || c == '\n' || c == '\r' || c == '\U{000B}' || c == '\U{000C}'
  }

  function TrimStart(s: string): string
  {
    if s != [] && IsSpace(s[0]) then TrimStart(s[1..]) else s
  }

  function TrimEnd(s: string): string
  {
    if s != [] && IsSpace(s[|s| - 1]) then TrimEnd(s[..|s| - 1]) else s
  }

  /** `s.trim()` */
  function Trim(s: string): string
  {
    TrimEnd(TrimStart(s))
  }

  function LowerChar(c: char): char
  {
    if 'A' <= c <= 'Z' then (c as int + 32) as char else c
  }

  function UpperChar(c: char): char
  {
    if 'a' <= c <= 'z' then (c as int - 32) as char else c
  }

  /** `s.toLowerCase()`, for ASCII letters. */
  function Lower(s: string): string
  {
    if s == [] then [] else [LowerChar(s[0])] + Lower(s[1..])
  }

  predicate StartsWith(s: string, prefix: string)
  {
    |prefix| <= |s| && s[..|prefix|] == prefix
  }

  /** `s.includes(t)` */
  predicate Contains(s: string, t: string)
  {
    exists i :: 0 <= i <= |s| - |t| && OccursAt(s, t, i)
  }

  predicate OccursAt(s: string, t: string, i: int)
  {
    0 <= i <= |s| - |t| && s[i..i + |t|] == t
  }

  /** `s.split(sep)` for a one-character separator: always at least one piece. */
  function Split(s: string, sep: char): (pieces: seq<string>)
    ensures |pieces| >= 1
  {
    SplitFrom(s, sep, "")
  }

  function SplitFrom(s: string, sep: char, current: string): (pieces: seq<string>)
    ensures |pieces| >= 1
  {
    if s == [] then [current]
    else if s[0] == sep then [current] + SplitFrom(s[1..], sep, "")
    else SplitFrom(s[1..], sep, current + [s[0]])
  }

  /** Characters other than the separator only extend the current piece. */
  lemma {:induction false} SplitFromSkip(a: string, rest: string, sep: char, current: string)
    requires sep !in a
    ensures SplitFrom(a + rest, sep, current) == SplitFrom(rest, sep, current + a)
  {
    if a != [] {
      assert a[0] in a && a[0] != sep;
      assert (a + rest)[0] == a[0];
      assert (a + rest)[1..] == a[1..] + rest;
      assert SplitFrom(a + rest, sep, current) == SplitFrom(a[1..] + rest, sep, current + [a[0]]);
      SplitFromSkip(a[1..], rest, sep, current + [a[0]]);
      assert current + [a[0]] + a[1..] == current + a;
    } else {
      assert a + rest == rest && current + a == current;
    }
  }

  /** Text without the separator splits into itself; text before the first separator is the
      first piece. */
  lemma SplitFacts(a: string, b: string, sep: char)
    requires sep !in a
    ensures Split(a, sep) == [a]
    ensures Split(a + [sep] + b, sep)[0] == a
  {
    SplitFromSkip(a, [], sep, "");
    assert a + [] == a && "" + a == a;
    SplitFromSkip(a, [sep] + b, sep, "");
    assert a + [sep] + b == a + ([sep] + b);
    assert ([sep] + b)[1..] == b;
  }

  // ---------------------------------------------------------------------------
  // Numbers as text

  function DigitChar(d: nat): char
    requires d < 10
  {
    ('0' as int + d) as char
  }

  function NatToString(n: nat): string
  {
    if n < 10 then [DigitChar(n)] else NatToString(n / 10) + [DigitChar(n % 10)]
  }

  function IntToString(i: int): string
  {
    if i < 0 then "-" + NatToString(-i) else NatToString(i)
  }

  function Pow10(k: nat): (p: nat)
    ensures p >= 1
  {
    if k == 0 then 1 else 10 * Pow10(k - 1)
  }

  function PadLeft(s: string, width: nat): string
    decreases width - |s|
  {
    if |s| >= width then s else PadLeft("0" + s, width)
  }

  function StripTrailingZeros(s: string): string
  {
    if s != [] && s[|s| - 1] == '0' then StripTrailingZeros(s[..|s| - 1]) else s
  }

  /** Decimal text of a non-negative finite number: the integer part, then up to
      fifteen fractional digits without trailing zeros. */
  function NonNegativeNumberText(x: real): string
    requires x >= 0.0
  {
    var whole := x.Floor;
    var frac := ((x - whole as real) * Pow10(15) as real).Floor;
    NatToString(whole) +
    (if frac <= 0 then "" else "." + StripTrailingZeros(PadLeft(NatToString(frac), 15)))
  }

  function NumberToString(x: real): string
  {
    if x < 0.0 then "-" + NonNegativeNumberText(-x) else NonNegativeNumberText(x)
  }

  /** `String(v)` */
  function ToStr(v: Value): string
  {
    match v
    case Num(x) => NumberToString(x)
    case NaN => "NaN"
    case Infinity(positive) => if positive then "Infinity" else "-Infinity"
    case Str(s) => s
    case Bool(b) => if b then "true" else "false"
    case Null => "null"
    case Undefined => "undefined"
  }

  // ---------------------------------------------------------------------------
  // Text as numbers

  predicate AllDigits(s: string)
  {
    forall i :: 0 <= i < |s| ==> IsDigit(s[i])
  }

  function DigitsValue(s: string): nat
    requires AllDigits(s)
  {
    if s == [] then 0 else 10 * DigitsValue(s[..|s| - 1]) + DigitValue(s[|s| - 1])
  }

  /** Unsigned decimal literal `digits`, `digits.`, `.digits` or `digits.digits`. */
  function UnsignedDecimal(s: string): Option<real>
  {
    var pieces := Split(s, '.');
    if |pieces| == 1 && s != [] && AllDigits(s) then
      Some(DigitsValue(s) as real)
    else if |pieces| == 2 && AllDigits(pieces[0]) && AllDigits(pieces[1])
            && (pieces[0] != [] || pieces[1] != []) then
      Some(DigitsValue(pieces[0]) as real
           + DigitsValue(pieces[1]) as real / Pow10(|pieces[1]|) as real)
    else None
  }

  /** `Number(s)` for a string: white space around the literal is ignored, the
      empty string is 0, anything that is not a decimal literal is NaN. */
  function StringToNumber(s: string): Value
  {
    var t := Trim(s);
    if t == "" then Num(0.0)
    else if t == "Infinity" || t == "+Infinity" then Infinity(true)
    else if t == "-Infinity" then Infinity(false)
    else
      var negative := t[0] == '-';
      var body := if t[0] == '-' || t[0] == '+' then t[1..] else t;
      match UnsignedDecimal(body)
      case Some(r) => Num(if negative then -r else r)
      case None => NaN
  }

  /** Two digits read as a number give their decimal value. */
  lemma TwoDigitsToNumber(a: char, b: char)
    requires IsDigit(a) && IsDigit(b)
    ensures StringToNumber([a, b]) == Num((10 * DigitValue(a) + DigitValue(b)) as real)
  {
    var s := [a, b];
    assert !IsSpace(a) && !IsSpace(b);
    assert TrimStart(s) == s;
    assert TrimEnd(s) == s;
    assert Trim(s) == s;
    assert '.' !in s;
    SplitFacts(s, "", '.');
    assert AllDigits(s);
    assert s[..|s| - 1] == [a];
    assert [a][..0] == [];
    assert DigitsValue([a]) == DigitValue(a);
    assert DigitsValue(s) == 10 * DigitsValue([a]) + DigitValue(b);
    assert UnsignedDecimal(s) == Some(DigitsValue(s) as real);
  }

  /** A part of a positive whole is a share between 0 and 1, and the whole is all of it. */
  lemma ShareBounds(n: nat, t: nat)
    requires 0 < t && n <= t
    ensures 0.0 <= n as real / t as real <= 1.0
    ensures n == t ==> n as real / t as real == 1.0
  {
    var share := n as real / t as real;
    assert share * t as real == n as real;
  }
  /** `Number(v)` */
  function ToNumber(v: Value): Value
  {
    match v
    case Num(_) => v
    case NaN => NaN
    case Infinity(_) => v
    case Str(s) => StringToNumber(s)
    case Bool(b) => Num(if b then 1.0 else 0.0)
    case Null => Num(0.0)
    case Undefined => NaN
  }

  /** The longest run of digits at the start of `s`. */
  function LeadingDigits(s: string): string
  {
    if s != [] && IsDigit(s[0]) then [s[0]] + LeadingDigits(s[1..]) else ""
  }

  /** `parseInt(s, 10)`: None stands for NaN. */
  function ParseInt(s: string): Option<int>
  {
    var t := TrimStart(s);
    var negative := t != [] && t[0] == '-';
    var body := if t != [] && (t[0] == '-' || t[0] == '+') then t[1..] else t;
    var digits := LeadingDigits(body);
    if digits == [] then None
    else
      assert AllDigits(digits) by { LeadingDigitsAreDigits(body); }
      var magnitude: int := DigitsValue(digits);
      Some(if negative then -magnitude else magnitude)
  }

  lemma LeadingDigitsAreDigits(s: string)
    ensures AllDigits(LeadingDigits(s))
  {
  }
}
