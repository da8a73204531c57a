/**
 * The few JavaScript string and number primitives that the upload page and the
 * webhook script rely on: `Number.prototype.toString(radix)`, `parseInt(s, 10)`,
 * ASCII case mapping, `String.prototype.substring`, the `\s` character class and
 * `Array.prototype.join`.
 */
module JsText {

  /** A JavaScript value that may be `undefined`. */
  datatype Option<T> = None | Some(value: T)

  /** The characters of JavaScript's `\s` class (also what `parseInt` skips at the start). */
  predicate IsWhitespace(c: char) {
    var n := c as int;
    n == 0x09 || n == 0x0A || n == 0x0B || n == 0x0C || n == 0x0D || n == 0x20 ||
    n == 0xA0 || n == 0x1680 || (0x2000 <= n <= 0x200A) || n == 0x2028 || n == 0x2029 ||
    n == 0x202F || n == 0x205F || n == 0x3000 || n == 0xFEFF
  }

  predicate IsDecimalDigit(c: char) {
    '0' <= c <= '9'
  }

  /** The value of a digit character in any radix up to 36, either case; -1 for other characters. */
  function DigitValue(c: char): (d: int)
    ensures -1 <= d < 36
    ensures IsDecimalDigit(c) <==> 0 <= d < 10
  {
    if '0' <= c <= '9' then c as int - '0' as int
    else if 'a' <= c <= 'z' then c as int - 'a' as int + 10
    else if 'A' <= c <= 'Z' then c as int - 'A' as int + 10
    else -1
  }

  /** The lower-case digit `Number.prototype.toString` writes for `d`. */
  function DigitChar(d: nat): (c: char)
    requires d < 36
    ensures DigitValue(c) == d
    ensures d < 10 <==> IsDecimalDigit(c)
    ensures !IsWhitespace(c) && c != '.' && c != '@' && c != '-' && c != '+' && c != '_'
  {
    if d < 10 then (48 + d) as char else (87 + d) as char
  }

  /** `n.toString(radix)` for a non-negative integer: most significant digit first, "0" for 0. */
  function Radix(n: nat, radix: nat): (s: string)
    requires 2 <= radix <= 36
    ensures |s| > 0
    ensures forall i | 0 <= i < |s| :: 0 <= DigitValue(s[i]) < radix
    ensures forall i | 0 <= i < |s| :: s[i] == DigitChar(DigitValue(s[i]))
    ensures n == 0 ==> s == "0"
    ensures n > 0 ==> s[0] != '0'
    decreases n
  {
    if n < radix then [DigitChar(n)]
    else
      DivMod(n, radix);
      Radix(n / radix, radix) + [DigitChar(n % radix)]
  }

  lemma DivMod(n: nat, radix: nat)
    requires 2 <= radix <= n
    ensures 0 < n / radix < n && n % radix < radix && n / radix * radix + n % radix == n
  {
    var q, r := n / radix, n % radix;
    assert q * radix + r == n && r < radix;
    PositiveFactor(q, radix);
    AtLeastDouble(q, radix);
  }

  lemma PositiveFactor(a: int, b: nat)
    requires a * b > 0
    ensures a > 0
  {
  }

  lemma AtLeastDouble(a: nat, b: nat)
    requires b >= 2
    ensures a * b >= 2 * a
  {
  }

  /** `n.toString()` */
  function Decimal(n: nat): (s: string)
    ensures |s| > 0 && forall i | 0 <= i < |s| :: IsDecimalDigit(s[i])
    ensures n == 0 ==> s == "0"
    ensures n > 0 ==> s[0] != '0'
  {
    Radix(n, 10)
  }

  /** The number a digit string denotes in the given radix (the inverse of `Radix`). */
  function DigitsValue(s: string, radix: nat): nat
    requires forall i | 0 <= i < |s| :: 0 <= DigitValue(s[i]) < radix
  {
    if s == [] then 0
    else
      var front := s[..|s| - 1];
      assert forall i | 0 <= i < |front| :: front[i] == s[i];
      var v := DigitsValue(front, radix);
      NonnegativeProduct(v, radix);
      v * radix + DigitValue(s[|s| - 1])
  }

  lemma NonnegativeProduct(a: nat, b: nat)
    ensures a * b >= 0
  {
  }

  lemma {:induction false} RadixRoundTrip(n: nat, radix: nat)
    requires 2 <= radix <= 36
    ensures DigitsValue(Radix(n, radix), radix) == n
    decreases n
  {
    var s := Radix(n, radix);
    if n >= radix {
      DivMod(n, radix);
      var q, r := n / radix, n % radix;
      RadixRoundTrip(q, radix);
      assert s[..|s| - 1] == Radix(q, radix);
      assert DigitValue(s[|s| - 1]) == r;
      assert q * radix + r == n;
    }
  }

  /** Two numbers have the same rendering in a radix only if they are equal. */
  lemma RadixInjective(m: nat, n: nat, radix: nat)
    requires 2 <= radix <= 36
    requires Radix(m, radix) == Radix(n, radix)
    ensures m == n
  {
    RadixRoundTrip(m, radix);
    RadixRoundTrip(n, radix);
  }

  function UpperChar(c: char): char {
    if 'a' <= c <= 'z' then (c as int - 32) as char else c
  }

  function LowerChar(c: char): char {
    if 'A' <= c <= 'Z' then (c as int + 32) as char else c
  }

  /** `toUpperCase()` on ASCII letters. */
  function Upper(s: string): (r: string)
    ensures |r| == |s| && forall i | 0 <= i < |s| :: r[i] == UpperChar(s[i])
  {
    seq(|s|, i requires 0 <= i < |s| => UpperChar(s[i]))
  }

  /** `toLowerCase()` on ASCII letters. */
  function Lower(s: string): (r: string)
    ensures |r| == |s| && forall i | 0 <= i < |s| :: r[i] == LowerChar(s[i])
  {
    seq(|s|, i requires 0 <= i < |s| => LowerChar(s[i]))
  }

  /** A character of an upper-cased base-36 rendering: 0-9 or A-Z. */
  predicate IsUpperBase36(c: char) {
    '0' <= c <= '9' || 'A' <= c <= 'Z'
  }

  lemma UpperDigitsAreUpperBase36(s: string)
    requires forall i | 0 <= i < |s| :: 0 <= DigitValue(s[i]) < 36
    ensures forall i | 0 <= i < |s| :: IsUpperBase36(Upper(s)[i])
  {
  }

  /** Upper-casing a digit string does not change the number it denotes. */
  lemma {:induction false} UpperKeepsValue(s: string, radix: nat)
    requires forall i | 0 <= i < |s| :: 0 <= DigitValue(s[i]) < radix
    ensures forall i | 0 <= i < |s| :: 0 <= DigitValue(Upper(s)[i]) < radix
    ensures DigitsValue(Upper(s), radix) == DigitsValue(s, radix)
  {
    if s != [] {
      var p := s[..|s| - 1];
      UpperKeepsValue(p, radix);
      assert Upper(s)[..|s| - 1] == Upper(p);
    }
  }

  /** Upper-casing a rendering in a radix loses nothing: equal upper-cased renderings are of equal numbers. */
  lemma UpperRadixInjective(m: nat, n: nat, radix: nat)
    requires 2 <= radix <= 36
    requires Upper(Radix(m, radix)) == Upper(Radix(n, radix))
    ensures m == n
  {
    UpperKeepsValue(Radix(m, radix), radix);
    UpperKeepsValue(Radix(n, radix), radix);
    RadixRoundTrip(m, radix);
    RadixRoundTrip(n, radix);
  }

  /** `s.substring(start, end)` for non-negative indices: both are clamped to the length and swapped when reversed. */
  function Substring(s: string, start: nat, end: nat): (r: string)
    ensures |r| <= |s|
    ensures start <= end <= |s| ==> r == s[start..end]
    ensures start <= end && |s| <= start ==> r == ""
  {
    var a := if start < |s| then start else |s|;
    var b := if end < |s| then end else |s|;
    if a <= b then s[a..b] else s[b..a]
  }

  /** `items.join(sep)`, which is also `String(items)` when `sep` is ",". */
  function Join(items: seq<string>, sep: string): string {
    if items == [] then ""
    else if |items| == 1 then items[0]
    else Join(items[..|items| - 1], sep) + sep + items[|items| - 1]
  }

  /** Drops leading whitespace, as `parseInt` does first. */
  function TrimStart(s: string): (r: string)
    ensures |r| <= |s| && r == s[|s| - |r|..]
    ensures r == [] || !IsWhitespace(r[0])
    ensures forall i | 0 <= i < |s| - |r| :: IsWhitespace(s[i])
    ensures s != [] && !IsWhitespace(s[0]) ==> r == s
  {
    if s == [] || !IsWhitespace(s[0]) then s else TrimStart(s[1..])
  }

  /** The longest prefix made of decimal digits. */
  function DigitPrefix(s: string): (r: string)
    ensures |r| <= |s| && r == s[..|r|]
    ensures forall i | 0 <= i < |r| :: IsDecimalDigit(r[i])
    ensures |r| < |s| ==> !IsDecimalDigit(s[|r|])
  {
    if s == [] || !IsDecimalDigit(s[0]) then [] else [s[0]] + DigitPrefix(s[1..])
  }

  /**
   * `parseInt(s, 10)`: skip leading whitespace, read an optional sign, then the
   * longest run of decimal digits; `None` stands for NaN (no digits at all).
   */
  function ParseInt(s: string): (r: Option<int>)
    ensures r.None? <==> DigitPrefix(SignStripped(TrimStart(s))) == []
  {
    var t := TrimStart(s);
    var digits := DigitPrefix(SignStripped(t));
    if digits == [] then None
    else
      var magnitude: int := DigitsValue(digits, 10);
      Some(if t != [] && t[0] == '-' then -magnitude else magnitude)
  }

  function SignStripped(t: string): string {
    if t != [] && (t[0] == '-' || t[0] == '+') then t[1..] else t
  }

  /** A string of decimal digits is its own longest digit prefix. */
  lemma {:induction false} AllDigitsPrefix(s: string)
    requires forall i | 0 <= i < |s| :: IsDecimalDigit(s[i])
    ensures DigitPrefix(s) == s
  {
    if s != [] {
      AllDigitsPrefix(s[1..]);
    }
  }

  /** `parseInt(String(n), 10) == n`: reading back a rendered count gives the count. */
  lemma ParseIntOfDecimal(n: nat)
    ensures ParseInt(Decimal(n)) == Some(n)
  {
    var s := Decimal(n);
    assert TrimStart(s) == s;
    assert SignStripped(s) == s;
    AllDigitsPrefix(s);
    RadixRoundTrip(n, 10);
  }
}
